# StateChronicle: a verified model

StateChronicle is an append-only ledger of typed game and commerce state. Each tenant's commits
chain state roots of a sparse Merkle accumulator, checkpoints bind many tenants, projections and
a trade index are rebuilt from the event stream, durable writes go through an idempotent
transaction protocol, and ingress is throttled by token buckets. This project models those parts
in Dafny and proves what they promise, for all inputs and all runs.

How the model is laid out:

- `bytes.dfy`, `ordering.dfy`, `arithmetic.dfy`, `options.dfy`, `work_sets.dfy`, `domain.dfy`: bytes
  and messages, orders and stable sorting, products, sets that loops work off, and the domain
  records.
- `state_key.dfy`, `sparse_merkle.dfy`, `accumulator.dfy`: state keys, the 256-level sparse Merkle
  tree with its prover, and both path verifiers.
- `merkle_tree.dfy`, `commit_roots.dfy`, `checkpoint.dfy`: the odd-duplicating Merkle tree, event
  roots, commit chaining and tenant checkpoints.
- `rebuild.dfy`, `rebuild_runs.dfy`: projection rebuild that survives crashes, and runs of
  overlapping rebuild processes.
- `value_legs.dfy`, `trade_index.dfy`, `trade_records.dfy`, `trade_service.dfy`: the trade index.
- `persist.dfy`, `ledger_runs.dfy`: the durable persistence protocol and its interleaved runs on
  an atomic ledger.
- `amount.dfy`, `rate_limit.dfy`: fixed-point amounts and token buckets.
- `publish_order.dfy`, `order_file.dfy`: the publish order script.

Hashing is a parameter: a function from messages to 32-byte digests about which nothing is
assumed. A soundness statement reads "the claim is true, or this explicitly computed pair of
different messages has one digest". Canonical encodings are parameters too, injective where a
lemma says so.

Where code and documentation disagree the model follows the code:

- `retry_after_ms` is documented as the time until one token is expected. The code computes the
  time until the whole deficit is (`crates/statechronicle-core/src/rate_limit.rs:19-20`, `90-95`):
  `RetryIsForTheDeficit` is an input where they differ, and `OneTokenIff` says exactly when they
  agree.
- The accumulator's `verify_non_membership` is documented to authenticate the empty leaf, but
  takes the leaf hash from the proof. `AccumulatorLeafIsExact` states what it does establish and
  `AccumulatorAbsenceIsUnchecked` exhibits the gap.
- `infer_state_key` is documented to reject a subject that is not a non-empty string. The code
  rejects no subject (`crates/statechronicle-commit/src/roots.rs:117-135`, `227-240`): an empty one
  gets a key of its own, apart from that of no subject (`EventsShareKeyIff`).
- `validate_order` is documented to demand that every crate precedes its dependents. It does not
  notice a crate that depends on itself (`AcceptedIff`, `SelfEdgeIsMissed`).
- A caller who retries as told can still be denied, with a clock behind the bucket's stamp and
  with a saturated retry (`RetryCanFail`). `RetryIsHonouredIff` is the exact condition.

`dafny verify dfyconfig.toml` checks the whole project.

## Model

| member | source | states |
|---|---|---|
| `Ordering.SortByIsTheStableSort` | crates/statechronicle-commit/src/roots.rs:157-161 | being sorted and keeping equal elements in order leaves a stable sort one result, that of the insertion sort standing for the library sorts |
| `StateKeys.ForResourceKey` | crates/statechronicle-accumulator/src/key.rs:65-74 | hashing the tag, the length-prefixed tenant and the length-prefixed resource piece by piece gives the key of the resource scope |
| `StateKeys.ForSubjectKey` | crates/statechronicle-accumulator/src/key.rs:81-93 | likewise for a resource held by a subject |
| `StateKeys.ScopePreInjective` | crates/statechronicle-accumulator/src/key.rs:65-101 | the key preimage determines the scope, across both kinds of key and all identifiers |
| `StateKeys.KeysNameOneScope` | crates/statechronicle-accumulator/src/key.rs:65-93 | two scopes with one key are equal or their preimages collide |
| `StateKeys.BitAtByShift` | crates/statechronicle-accumulator/src/key.rs:51-59 | byte selection, shift and mask read the bit of the root-to-leaf path, out of range included |
| `StateKeys.KeyOfPath` | crates/statechronicle-accumulator/src/key.rs:51-59 | every full 256-bit path is the path of the key it writes |
| `StateKeys.PathOfKey` | crates/statechronicle-accumulator/src/key.rs:51-59 | every key is the key its own path writes |
| `StateKeys.KeyOrderIsBitOrder` | crates/statechronicle-accumulator/src/key.rs:123-127 | among keys sharing a path prefix, byte order agrees with the next routing bit |
| `SparseMerkle.SplitIsPartitionPoint` | crates/statechronicle-accumulator/src/sparse_merkle.rs:1524-1530 | on every range the tree visits the routing bit is monotone, so the split is the only index a partition point may return |
| `SparseMerkle.SplitIsMonotone` | crates/statechronicle-accumulator/src/sparse_merkle.rs:1496-1530 | both halves of a split are exactly the entries below the two child paths |
| `SparseMerkle.NodeHashIsDense` | crates/statechronicle-accumulator/src/sparse_merkle.rs:1496-1520 | the range-based node hash equals the dense tree's node at every height and path |
| `SparseMerkle.SparseRefinesDense` | crates/statechronicle-accumulator/src/sparse_merkle.rs:1462-1520 | for every leaf map the computed root is the root of the full tree with one leaf per possible key, so it depends on the map alone |
| `SparseMerkle.EmptyDense` | crates/statechronicle-accumulator/src/sparse_merkle.rs:1335-1342 | a dense subtree without entries hashes to the default of its height |
| `SparseMerkle.CanonicalStepsExact` | crates/statechronicle-accumulator/src/sparse_merkle.rs:1477-1487 | canonical steps ascend strictly, stay below the height and occur exactly where the sibling subtree differs from the default |
| `SparseMerkle.CollectStepsInner` | crates/statechronicle-accumulator/src/sparse_merkle.rs:1534-1573 | the downward walk pushes exactly the sibling steps of the target, root first |
| `SparseMerkle.CollectSteps` | crates/statechronicle-accumulator/src/sparse_merkle.rs:1477-1487 | the prover emits exactly the canonical steps, for present and absent keys |
| `SparseMerkle.StepsDownCanonical` | crates/statechronicle-accumulator/src/sparse_merkle.rs:1534-1573 | what the walk pushes at any node is the canonical list of that subtree |
| `SparseMerkle.VerifyPath` | crates/statechronicle-accumulator/src/sparse_merkle.rs:1582-1606 | accepts exactly when the path rebuilt from the level map leads to the root |
| `SparseMerkle.ProverComplete` | crates/statechronicle-accumulator/src/sparse_merkle.rs:1427-1459 | for every map and key the canonical proof leads to the root |
| `Accumulator.StateAccumulator.InsertBatch` | crates/statechronicle-accumulator/src/sparse_merkle.rs:1418-1423 | the leaves are the old ones with the batch applied in order, later update winning, and the root is the dense root |
| `Accumulator.StateAccumulator.ProveInclusion` | crates/statechronicle-accumulator/src/sparse_merkle.rs:1427-1434 | a proof exists exactly for present keys and is canonical and leads to the root |
| `Accumulator.StateAccumulator.ProveNonMembership` | crates/statechronicle-accumulator/src/sparse_merkle.rs:1440-1449 | a proof exists exactly for absent keys and is canonical and leads to the root |
| `Accumulator.RoutesRight` | crates/statechronicle-portable/src/integrity.rs:123-127 | the portable byte and shift arithmetic reads the accumulator's routing bit |
| `Accumulator.PortableVerifyPath` | crates/statechronicle-portable/src/integrity.rs:99-136 | accepts exactly the strictly ascending step lists on which the accumulator's verifier accepts; the leftover check never fires |
| `Accumulator.AscendingFits` | crates/statechronicle-portable/src/integrity.rs:99-107 | a strictly ascending list of levels passes the length and window checks |
| `Accumulator.PortableVerifyInclusion` | crates/statechronicle-portable/src/integrity.rs:78-85 | accepts exactly an ascending path from the leaf of the key and state to the root |
| `Accumulator.PortableVerifyNonMembership` | crates/statechronicle-portable/src/integrity.rs:88-90 | accepts exactly an ascending path from the empty leaf to the root |
| `Accumulator.MeetingPaths` | crates/statechronicle-portable/src/integrity.rs:99-136 | two paths of one key that meet have one leaf preimage or a collision is found on the way down |
| `Accumulator.InclusionSound` | crates/statechronicle-portable/src/integrity.rs:74-136 | an accepted inclusion is true of the map, or is the all-zero leaf, or yields a collision |
| `Accumulator.AbsenceSound` | crates/statechronicle-portable/src/integrity.rs:86-136 | an accepted absence is true of the map, or is the all-zero leaf, or yields a collision |
| `Accumulator.ZeroLeafIsAmbiguous` | crates/statechronicle-portable/src/integrity.rs:74-90 | the exception is real: the zero key's canonical proof passes as inclusion and as absence |
| `Accumulator.HonestProofsAccepted` | crates/statechronicle-portable/src/integrity.rs:74-136 | the prover's proofs are accepted by the portable verifier for every map and key |
| `Accumulator.AccumulatorLeafIsExact` | crates/statechronicle-accumulator/src/sparse_merkle.rs:1452-1459 | an accepted proof's leaf hash is the leaf at its key or a collision is found; hence absence is established exactly when the leaf hash is the empty leaf |
| `Accumulator.AccumulatorAbsenceIsUnchecked` | crates/statechronicle-accumulator/src/sparse_merkle.rs:1457-1459 | without that comparison a present key's path is accepted as non-membership |
| `Accumulator.RootBindsMap` | crates/statechronicle-accumulator/src/sparse_merkle.rs:1400-1423 | one root for two maps that differ at a key yields a collision |
| `Accumulator.DifferentMapsDiffer` | crates/statechronicle-accumulator/src/sparse_merkle.rs:1618-1624 | leaf preimages differ exactly where the maps differ, except for the all-zero leaf |
| `MerkleTree.ComputeNextLevel` | crates/statechronicle-commit/src/roots.rs:59-69 | the chunk loop joins neighbours and an odd last node with itself |
| `MerkleTree.RootIsTreeHash` | crates/statechronicle-commit/src/roots.rs:50-74 | halving levels until one node is left hashes one explicit tree |
| `MerkleTree.TreeBinding` | crates/statechronicle-commit/src/roots.rs:50-74 | two separated trees with one hash are equal or a collision is found |
| `MerkleTree.TopTreeInjective` | crates/statechronicle-commit/src/roots.rs:50-74 | lists of one length are told apart by their tree despite odd duplication |
| `MerkleTree.TopTreeInjectiveDistinct` | crates/statechronicle-commit/src/roots.rs:50-74 | duplicate-free lists are told apart by their tree whatever their lengths |
| `MerkleTree.SameTreeIff` | crates/statechronicle-commit/src/roots.rs:50-74 | two lists share their tree exactly when their completions agree |
| `CommitRoots.EventRoot` | crates/statechronicle-commit/src/roots.rs:50-74 | empty batches and unencodable events are errors, otherwise the root of the event digests |
| `CommitRoots.EventRootBinds` | crates/statechronicle-commit/src/roots.rs:50-74 | equal count and equal root give equal event digests or a collision |
| `CommitRoots.EventRootBindsDistinct` | crates/statechronicle-commit/src/roots.rs:50-74 | for duplicate-free lists the root alone binds the list across lengths |
| `CommitRoots.OddDuplicationMeets` | crates/statechronicle-commit/src/roots.rs:59-69 | three events and the same three with the last repeated share a root |
| `CommitRoots.EventRootsMeetIff` | crates/statechronicle-commit/src/roots.rs:50-74 | two lists of any lengths share an event tree exactly when their completions, last blocks repeated up to a power of two, agree; equal roots give equal completions or a collision |
| `CommitRoots.EventsShareKeyIff` | crates/statechronicle-commit/src/roots.rs:111-135 | two events write one leaf exactly when they agree on tenant, resource and subject, an empty subject apart from none, up to collisions |
| `CommitRoots.EventRootBindsEvents` | crates/statechronicle-commit/src/roots.rs:50-74 | under an injective encoding the root binds the events |
| `CommitRoots.StateRootUpdates` | crates/statechronicle-commit/src/roots.rs:148-162 | one update per event, stably sorted by key; empty batches are errors |
| `CommitRoots.LastOfClassWins` | crates/statechronicle-commit/src/roots.rs:172-176 | a key's leaf is the digest of the last update of that key |
| `CommitRoots.SortKeepsLeaves` | crates/statechronicle-commit/src/roots.rs:148-176 | the stable sort by key never changes a winner |
| `CommitRoots.WellFormedSetIsOrderFree` | crates/statechronicle-commit/src/roots.rs:164-176 | when each key has one digest, any rearrangement has the same leaves |
| `CommitRoots.ComputeStateRoot` | crates/statechronicle-commit/src/roots.rs:172-176 | the root of the map the updates leave behind |
| `CommitRoots.VerifyContinuity` | crates/statechronicle-commit/src/roots.rs:191-215 | accepts exactly when prior updates give the previous root and prior plus current give the next; the mismatch error carries the declared and the computed root |
| `CommitRoots.BuildRoots` | crates/statechronicle-commit/src/builder.rs:136-160 | the commit's count, event root and next state root; error cases |
| `CommitRoots.LastEventWins` | crates/statechronicle-commit/src/roots.rs:121-162 | the last event of a key in the history decides its leaf |
| `CommitRoots.PriorIsHistory` | crates/statechronicle-commit/src/builder.rs:136-156 | accumulating every batch's sorted updates leaves the state of the whole event history |
| `CommitRoots.ChainLink` | crates/statechronicle-commit/src/builder.rs:136-156 | on any prior updates that reach the state of a history, the next root is the root of the extended history and continuity accepts the link |
| `CommitRoots.EveryLinkIsAccepted` | crates/statechronicle-commit/src/builder.rs:136-156 | every link of a chain whose prior is the sorted updates of all earlier commits is accepted |
| `CommitRoots.ContinuityBinds` | crates/statechronicle-commit/src/roots.rs:191-215 | a link accepted against the root of an observably different map yields a collision |
| `Checkpoint.LeafMessageInjective` | crates/statechronicle-accumulator/src/checkpoint.rs:153-160 | the length-prefixed leaf message determines tenant and root |
| `Checkpoint.BuildLevels` | crates/statechronicle-accumulator/src/checkpoint.rs:173-188 | every level is the next one up from its predecessor, down to a single node |
| `Checkpoint.VerifyTenantRoot` | crates/statechronicle-accumulator/src/checkpoint.rs:135-149 | accepts exactly when climbing the steps by the index bits reaches the root |
| `Checkpoint.StepsReachRoot` | crates/statechronicle-accumulator/src/checkpoint.rs:95-132 | from any node of any level the recorded siblings lead to the root |
| `Checkpoint.ProveAt` | crates/statechronicle-accumulator/src/checkpoint.rs:101-125 | the loop collects exactly the siblings from the leaf level up |
| `Checkpoint.ProveTenantRoot` | crates/statechronicle-accumulator/src/checkpoint.rs:95-132 | every committed tenant and no other gets a proof; it names the tenant's committed root and verifies |
| `Checkpoint.FromTenantRoots` | crates/statechronicle-accumulator/src/checkpoint.rs:45-78 | empty input and duplicate tenants are errors, otherwise the committed tree over the sorted entries |
| `Checkpoint.InputOrderIrrelevant` | crates/statechronicle-accumulator/src/checkpoint.rs:45-78 | any permutation of the pairs gives the same entries, root and error |
| `Checkpoint.FirstDuplicateLeast` | crates/statechronicle-accumulator/src/checkpoint.rs:51-64 | the duplicate reported is the least tenant that repeats |
| `Checkpoint.AcceptedIsCommitted` | crates/statechronicle-accumulator/src/checkpoint.rs:135-188 | any accepted proof, whatever its index and number of steps, names a committed pair or yields a collision |
| `Checkpoint.CheckpointBinds` | crates/statechronicle-accumulator/src/checkpoint.rs:45-78 | two lists of tenant roots with one checkpoint root are equal or yield a collision |
| `Rebuild.ValidateStream` | crates/statechronicle-index/src/rebuild.rs:164-192 | accepts exactly the streams whose events are valid, have fresh ids and continue the last event of their scope |
| `Rebuild.LatestIsNewest` | crates/statechronicle-index/src/rebuild.rs:108-157 | in an accepted stream the last projection of a scope has the highest version, and only it has that version |
| `Rebuild.VersionsRise` | crates/statechronicle-index/src/rebuild.rs:164-192 | versions of one scope rise strictly along an accepted stream |
| `Rebuild.ChunkAccepted` | crates/statechronicle-index/src/rebuild.rs:248-268 | every contiguous chunk of an accepted stream is accepted |
| `Rebuild.AlwaysInserts` | crates/statechronicle-index/src/rebuild.rs:134-149 | on an accepted stream the stale and equal-version branches are unreachable |
| `Rebuild.RebuildProjections` | crates/statechronicle-index/src/rebuild.rs:108-157 | rejects without touching the sink, or upserts the last projection per scope; the only other error is the sink's |
| `Rebuild.RebuildChunk` | crates/statechronicle-index/src/rebuild.rs:248-268 | bounds errors, the next offset and row count, and the rows upserted |
| `Rebuild.RebuildResumable` | crates/statechronicle-index/src/rebuild.rs:281-315 | whichever call fails, rows come from the stream and are as new as the saved checkpoint says, other rows and checkpoints are untouched, the checkpoint never moves back; success means the rebuild is complete, with the saturating row count |
| `Rebuild.RestartUntilDone` | crates/statechronicle-index/src/rebuild.rs:270-315 | restarts with any chunk sizes keep progress, and one success means the one-shot result |
| `Rebuild.OneShotExact` | crates/statechronicle-index/src/rebuild.rs:108-157 | from an empty sink the one-shot rebuild leaves exactly the last projection per scope |
| `Rebuild.ResumedEqualsOneShot` | crates/statechronicle-index/src/rebuild.rs:270-315 | a finished chunked rebuild of an empty sink leaves the same rows |
| `Rebuild.FreshStart` | crates/statechronicle-index/src/rebuild.rs:294-298 | an empty sink without a checkpoint is a sound starting state, for every key |
| `RebuildRuns.EmptyClusterIsSound` | crates/statechronicle-index/src/rebuild.rs:294-298 | a fresh sink without checkpoints and processes is sound |
| `RebuildRuns.EveryRunIsSafe` | crates/statechronicle-index/src/rebuild.rs:270-315 | over every interleaving of the loads, chunks, upserts, saves and crashes of any number of processes, with failed calls that may have taken hold, any chunk ends and checkpoints moved back by a process that fell behind, the rows keep up with every checkpoint there ever was, and one at the end means lasting completion |
| `RebuildRuns.CheckpointsAdvance` | crates/statechronicle-index/src/rebuild.rs:270-315 | while no two live processes share a checkpoint key, no checkpoint moves back |
| `ValueLegs.RecoverValuePairs` | crates/statechronicle-index/src/build.rs:336-387 | the pairs of the batch's transfer groups in intent order; a group that is not two events or overflows is an error |
| `ValueLegs.DebitIsExact` | crates/statechronicle-index/src/build.rs:361-376 | a recovered debit is the exact sum of what the group's events drew down, across scales |
| `ValueLegs.MatchValueLegs` | crates/statechronicle-index/src/build.rs:418-478 | malformed declarations are errors, otherwise the positional match of both sorted lists |
| `ValueLegs.KeyLeIsTotalOrder` | crates/statechronicle-index/src/build.rs:480-486 | the key comparison is a total order whose equality is key equality |
| `ValueLegs.LegsAreFair` | crates/statechronicle-index/src/build.rs:418-478 | each leg joins a declaration and a pair with equal keys and no declaration or pair serves two legs |
| `ValueLegs.EqualKeysAttributeAll` | crates/statechronicle-index/src/build.rs:418-478 | equal multisets of declared and recovered keys attribute every declaration and pair |
| `TradeIndex.BatchTradeIds` | crates/statechronicle-index/src/build.rs:69-84 | the sorted duplicate-free ids of the batch's trade events and value-declaring intents |
| `TradeIndex.ApplyTradeEvents` | crates/statechronicle-index/src/build.rs:153-198 | locks, then settles, then unlocks update status, sides and references; a settle without owners is the only error |
| `TradeIndex.Apply` | crates/statechronicle-index/src/build.rs:98-144 | acceptance and the error depend on the batch alone, and the new index is given record by record |
| `TradeRecords.UpsertKeeps` | crates/statechronicle-index/src/build.rs:206-239 | upserting a settle keeps one sound side per settling tenant |
| `TradeRecords.AppliedKeeps` | crates/statechronicle-index/src/build.rs:98-144 | every record stays sound: one side per settling tenant in tenant order, duplicate-free assets that are the domain of the commit map, settle ids equal to the record's settle references in order, and Settled implies a side |
| `TradeRecords.SidesAreStrict` | crates/statechronicle-index/src/build.rs:114-122 | sides of a sound record are in strictly increasing tenant order |
| `TradeRecords.StatusRule` | crates/statechronicle-index/src/build.rs:153-198 | an unlock in the batch cancels, else a settle settles, else a lock opens |
| `TradeRecords.HistoryGrows` | crates/statechronicle-index/src/build.rs:98-144 | references and value legs are only ever appended |
| `TradeRecords.SettledAssetsArePinned` | crates/statechronicle-index/src/build.rs:217-227 | every asset settled in a batch is pinned to that batch's commit on its tenant's side |
| `TradeService.TouchedWithin` | crates/statechronicle-index/src/build.rs:61-84 | an accepted batch touches only the records its trade ids name |
| `TradeService.AppliedFrame` | crates/statechronicle-index/src/build.rs:69-144 | what apply does to the named records depends only on them, and no other record changes |
| `TradeService.IngestIsApply` | crates/statechronicle-index/src/service.rs:87-111 | seeding, applying and putting back equals applying to the whole index |
| `TradeService.IncrementalIsRebuild` | crates/statechronicle-index/src/service.rs:87-140 | for every sequence of batches, incremental ingestion equals replaying the accepted ones from nothing |
| `TradeService.EveryReplayIsSound` | crates/statechronicle-index/src/service.rs:127-140 | every record of every reachable index is sound |
| `TradeService.RebuildAgrees` | crates/statechronicle-index/src/service.rs:113-140 | incremental ingestion of accepted batches and rebuild give one index |
| `TradeService.RebuildRepairs` | crates/statechronicle-index/src/service.rs:113-140 | a rebuild over an index left by a partly put ingestion, and by rebuilds that were cut short after it, ends where a clean rebuild does |
| `TradeService.Service.IngestBatch` | crates/statechronicle-index/src/service.rs:87-111 | success gives the applied index, a rejected batch puts nothing, and an unreachable port, whose failed put may have written, leaves only some of the new records put |
| `TradeService.Service.Rebuild` | crates/statechronicle-index/src/service.rs:127-140 | success puts the replay over the index, a rejected batch puts nothing, an unreachable port leaves only some records of the replay put; records stay under their own ids, so ingestion can follow |
| `Persist.ValidateCommittedEvents` | crates/statechronicle-commit/src/persist.rs:302-314 | accepts exactly valid events with distinct ids |
| `Persist.ValidatedRootBinds` | crates/statechronicle-commit/src/persist.rs:182-215 | the root of a validated event list fixes the list whatever its length, or a collision is found |
| `Persist.PersistDurable` | crates/statechronicle-commit/src/persist.rs:217-299 | whatever the ledger answers, the calls made and the result returned are a complete run of the protocol automaton |
| `Persist.EveryTranscript` | crates/statechronicle-commit/src/persist.rs:217-299 | every prefix of every run is described by where it stands |
| `Persist.CommitComesLast` | crates/statechronicle-commit/src/persist.rs:260-295 | commit is reached only last, after the granted claim and all writes in order with the claimed attempt id succeeded |
| `Persist.ClosedExactlyOnce` | crates/statechronicle-commit/src/persist.rs:217-299 | after a successful begin exactly one closing call is made, the last one; fresh commits and replays are reported only on the ledger's word |
| `Persist.NothingAfterFailedBegin` | crates/statechronicle-commit/src/persist.rs:217-220 | a failed begin is the only call |
| `LedgerRuns.CommitIsEffect` | crates/statechronicle-ports/src/ledger_store.rs:83-129 | the writes of one attempt stage the whole request, so a commit has the request's whole effect |
| `LedgerRuns.EveryWorldIsSound` | crates/statechronicle/tests/support/durable.rs:54-260 | in every world reachable by interleaved attempts, failures, crashes, expired leases and lost responses of claims and commits, reserved keys are uncommitted, and reservations are exclusive and stand unless a lease of the key has run out |
| `LedgerRuns.CommitNeedsTheLease` | crates/statechronicle-ports/src/ledger_store.rs:40-51 | an attempt that has done its writes can commit exactly while the lease is held under the attempt id it was given, and always when no lease of the key has run out |
| `LedgerRuns.EveryRunIsSafe` | crates/statechronicle-commit/src/persist.rs:217-299 | over every such run, leases expiring at any time, a later success for a key replays the earlier one's commit id and payload, and the store is exactly the effect of whole requests, one per key |
| `Amounts.CheckedRescale` | crates/statechronicle-core/src/amount.rs:164-181 | repeated multiplication succeeds exactly when the rescaled mantissa fits |
| `Amounts.AddIsExact` | crates/statechronicle-core/src/amount.rs:139-145 | the sum is exact, and fails exactly when the aligned sum does not fit |
| `Amounts.SubIsExact` | crates/statechronicle-core/src/amount.rs:151-157 | the difference is exact, and fails exactly on underflow or when the minuend cannot be aligned |
| `Amounts.CmpUnsigned` | crates/statechronicle-core/src/amount.rs:290-312 | digit-string comparison is the order of the values written |
| `Amounts.Cmp` | crates/statechronicle-core/src/amount.rs:332-342 | comparison is exact rational order across all scales |
| `Amounts.CanonicalIffEqual` | crates/statechronicle-core/src/amount.rs:234-261 | canonical strings are equal exactly when values are |
| `Amounts.TryFromStr` | crates/statechronicle-core/src/amount.rs:201-224 | accepts exactly 1 to 39 digits whose value fits, with the right error otherwise |
| `Amounts.ParsePrintParse` | crates/statechronicle-core/src/amount.rs:201-261 | parsing the canonical string of a parsed amount restores it |
| `Amounts.CanonicalReparses` | crates/statechronicle-core/src/amount.rs:201-261 | a canonical string re-parses exactly when the value is whole, and then to that value |
| `RateLimit.TokenBucket.TryAcquireN` | crates/statechronicle-core/src/rate_limit.rs:51-101 | decision and state follow the acquire function on every branch |
| `RateLimit.GrantedIsBounded` | crates/statechronicle-core/src/rate_limit.rs:51-101 | over every run with timestamps in any order, grants are at most the tokens held plus what the rate earned up to the latest timestamp |
| `RateLimit.RetryIsPositive` | crates/statechronicle-core/src/rate_limit.rs:280-287 | the retry of a short bucket is never the zero used as the no-denial flag |
| `RateLimit.RetryIsHonoured` | crates/statechronicle-core/src/rate_limit.rs:73-101 | a denied caller whose clock is not behind and who waits as told is granted, when the retry arithmetic fits in u64 |
| `RateLimit.RetryIsHonouredIff` | crates/statechronicle-core/src/rate_limit.rs:73-101 | a denied caller who comes back at the time given is granted if and only if the clock was not behind the stamp, the deficit is computable, and the retry was not cut short, covers the deficit anyway, or time had been accruing before the denial |
| `RateLimit.RetryNeedsTheClock` | crates/statechronicle-core/src/rate_limit.rs:73-101 | where the retry arithmetic fits in u64, the retry is granted if and only if the clock was not behind the stamp |
| `RateLimit.RetryIsForTheDeficit` | crates/statechronicle-core/src/rate_limit.rs:90-100 | an input where one token is there after half the retry time |
| `RateLimit.OneTokenIff` | crates/statechronicle-core/src/rate_limit.rs:90-100 | the retry equals the time until one token exactly for a deficit of one, a rate that earns the deficit within a millisecond, or a rate above half of u64 |
| `RateLimit.RetryCanFail` | crates/statechronicle-core/src/rate_limit.rs:73-101 | concrete failures for a clock behind the stamp and for a saturated retry |
| `RateLimit.KeyedRateLimiter.TryAcquireN` | crates/statechronicle-core/src/rate_limit.rs:145-195 | key checks, cardinality bound and the bucket's decision; the key count stays within its bound |
| `RateLimit.KeyedRateLimiter.TryAcquireMany` | crates/statechronicle-core/src/rate_limit.rs:208-309 | every exit of the multi-key request, with least balance and longest retry; the key count stays within its bound |
| `RateLimit.AllOrNothing` | crates/statechronicle-core/src/rate_limit.rs:253-309 | a denial leaves each named bucket as refilled, a grant debits each distinct key once, others are untouched |
| `RateLimit.OneKeyAgrees` | crates/statechronicle-core/src/rate_limit.rs:145-309 | the outcomes of a one-key multi request are exactly the single-key request's, in decision and state, on every exit |
| `RateLimit.EveryKeyIsBounded` | crates/statechronicle-core/src/rate_limit.rs:145-327 | over every run mixing single-key and multi-key requests no key is charged more than its bucket held plus what the rate earned up to the latest timestamp |
| `PublishOrder.CountDegrees` | scripts/publish-order.py:170-175 | dependents and indegrees of every node |
| `PublishOrder.Settle` | scripts/publish-order.py:183-186 | decrementing the dependents keeps counters and heap exact for the grown order |
| `PublishOrder.FindCycle` | scripts/publish-order.py:188-202 | the walk along least prerequisites ends in a genuine closed cycle |
| `PublishOrder.TopologicalOrder` | scripts/publish-order.py:165-204 | returns a dependency-first order, the lexicographically least one, if and only if the graph has no cycle; otherwise a cycle |
| `PublishOrder.GreedyIsFirst` | scripts/publish-order.py:177-186 | taking the least available node every time beats every other dependency-first order |
| `PublishOrder.OrderedIsAcyclic` | scripts/publish-order.py:165-204 | a graph with a dependency-first order has no cycle |
| `OrderFile.ValidateOrder` | scripts/publish-order.py:257-288 | reports exactly the genuine violations of each kind |
| `OrderFile.AcceptedIff` | scripts/publish-order.py:257-288 | accepts exactly the dependency-first orders of the graph without its self-edges |
| `OrderFile.SelfEdgeIsMissed` | scripts/publish-order.py:282-286 | a self-edge passes although the graph has no dependency-first order at all |
| `OrderFile.ParseOrderLines` | scripts/publish-order.py:236-254 | the loop yields the entries the lines stand for, in order |
| `OrderFile.RoundTripIff` | scripts/publish-order.py:217-254 | parsing the emitted text restores the order exactly when no name contains `@`, for single-line names and versions |
| `OrderFile.GeneratedOrderIsAccepted` | scripts/publish-order.py:226-288 | a dependency-first order, emitted and parsed back, passes validation |

## Left out

- SHA-256, Ed25519, BCS, serde and base64: hashing and encodings are parameters, signatures are not modelled.
- The 257 precomputed default hashes are given by their recurrence, not as constants.
- `crates/statechronicle-executor` and `crates/statechronicle-profiles`: reducers, atomicity validation and settlement only delegate to the parts modelled here.
- Async scheduling, mutex poisoning, metrics, clocks and cancellation, except that a dropped attempt may crash between any two ledger calls.
- Identifier grammars, size limits, authorization and intent validation ahead of `begin` in the persistence path; per-event validation is a parameter of `ValidateCommittedEvents`.
- `projections_for` and `validate_projection_bindings`: a field-by-field copy and an equality test.
- `CommitBuilder` field checks and the commit id; only the root computation is modelled.
- `state_key_for`, which the root computation does not use.
- Trade history, summaries and proofs assembled by the service from the index.
- Network polling, manifest parsing and workspace metadata in the publish script; the version of each crate is a parameter.
- SparseMerkle.SplitIsPartitionPoint: `partition_point` is modelled by the first set bit, which this lemma shows to be the only possible result.
- Rebuild.RebuildProjections: the order in which the map's values reach the sink is left open, so nothing is said about that order.
- RebuildRuns.EveryRunIsSafe: assumes a version-monotone sink, as the port's contract demands.
- Persist.PersistDurable: all failures are one error result; messages are not modelled.
- LedgerRuns.EveryRunIsSafe: lease times are not modelled, a lease may run out at any moment; the head and version conflicts of a concrete ledger appear as commits that fail.
- PublishOrder.TopologicalOrder: the heap is modelled as the set of its elements, since no element is ever pushed twice, and dependents are visited in any order.
- TradeService.Service.IngestBatch: a missing record is reported by the index port as an empty answer rather than as its `NotFound` error.
