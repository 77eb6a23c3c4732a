# Latest-price ingestion: a Dafny model

This project models the core of a "latest price" web service. Clients push price updates for financial instruments in batches. A batch is created, receives chunks of (instrument, price) entries, and is then either completed or cancelled. Completing a batch publishes its contents into a store of latest prices. Cancelling it discards them. Repeated updates to one instrument are compacted down to one value by a merge rule. Within a batch and across batches, the rule is the same: a strictly later timestamp wins, and on an exact tie the value already stored is kept.

The behaviour modelled is the behaviour the repository's tests pin down: `CompactingBatchTest` for the accumulator and `BatchControllerTest` for the service. Where the tests say nothing, the model makes a choice, and "## Left out" lists each one with its reason.

Modules:

- `Results` (`results.dfy`): `Option` for a Java reference that may be null, and `Result` for an operation that may fail.
- `Merging` (`merging.dfy`): one merge step (`Combine`) and the left fold of merge over a key's values (`Fold`). Also timestamped values (`Stamped`) and the observed rule `LaterWins`, with `MaxStamp` and `FirstWithStamp` as an independent description of what folding `LaterWins` yields.
- `CompactingBatch` (`compacting_batch.dfy`): the generic accumulator `CompactingBatch<K, V>`. It holds a map, a state (`Open`, `Completed`, `Cancelled`) and `published`, the log of maps handed to the terminal consumer. The test's consumer offers each map to a queue, and the log is that queue. The injected merge function is a parameter of every transition that needs it.
- `LatestValueStore` (`latest_value_store.dfy`): the store's single write path, `Accept`, which merges one snapshot into the store.
- `BatchRegistry` (`batch_registry.dfy`): the service with HTTP stripped away. It has a directory from batch id to batch, an id counter and the store, plus `CreateBatch`, `AddChunk`, `Complete`, `Cancel` and `GetLatest`. `Valid` is its invariant. `Step` and `Run` serve sequences of requests.

Lifecycle of a batch id, as the service reports it:

- A batch that was completed or cancelled stays in the directory in that state.
- Completing or cancelling it again is accepted and changes nothing.
- Adding a non-empty chunk to it is `BatchNotFound`, because the accumulator refuses `add` once it has left `Open`. An empty chunk is `BadInput` on any batch in the directory, because the empty check comes before the state check.
- An id that was never issued is absent from the directory, and every batch operation on it is `BatchNotFound`.

Keeping resolved batches is what `BatchControllerTest.java:138-139` requires: it cancels a batch, then completes it, and expects both calls to succeed. A registry that removed a resolved id from its directory would answer that `complete` with `BatchNotFound`.

## Model

| member | source | states |
|---|---|---|
| Merging.LaterWins | src/test/java/pro/landlabs/pricing/common/CompactingBatchTest.java:25-26 | the winner is one of the two values and is at least as late as both; when it is exactly as late as the existing value, the existing value is kept |
| Merging.LaterWinsAssociative | src/test/java/pro/landlabs/pricing/common/CompactingBatchTest.java:25-26 | the test's merge rule gives the same winner however consecutive merge steps are grouped |
| Merging.FoldLaterWinsPicksFirstLatest | src/test/java/pro/landlabs/pricing/common/CompactingBatchTest.java:25-26 | folding the test's merge over a key's values yields the value with the maximum timestamp; among values sharing that timestamp it yields the first one added |
| CompactingBatch.PutAllFolds | src/test/java/pro/landlabs/pricing/common/CompactingBatchTest.java:25-28 | for any injected merge function, after a sequence of adds a key holds the left fold of merge over the values added for it, in call order, starting from its previous value; a key never added keeps its value, and an absent key stays absent |
| CompactingBatch.LatestPerKey | src/test/java/pro/landlabs/pricing/common/CompactingBatchTest.java:80-126 | with the test's merge, a completed batch publishes exactly its map; a key is in it if and only if some value was added for it, and then it holds the first value with the latest timestamp among those added |
| CompactingBatch.PutAllKeepsLatest | src/test/java/pro/landlabs/pricing/common/CompactingBatchTest.java:80-102 | with the test's merge, adding never moves a key back in time, and each key added ends with a value at least as late as every value added for it |
| CompactingBatch.Add | src/test/java/pro/landlabs/pricing/common/CompactingBatchTest.java:128-136 | an absent key or an absent value is refused with an argument error; a batch no longer open refuses the add; the add succeeds exactly when key and value are present and the batch is open, and then the key's value becomes the merge of what was stored with the incoming value (or the incoming value if the key was unseen), every other key keeps its value, and nothing is published |
| CompactingBatch.AddAll | src/test/java/pro/landlabs/pricing/common/CompactingBatchTest.java:91-93 | a run of adds succeeds exactly when the batch is open (or there is nothing to add); it touches only the map, which ends up as the pairs put in order, and publishes nothing |
| CompactingBatch.Complete | src/test/java/pro/landlabs/pricing/common/CompactingBatchTest.java:43-56 | an open batch hands its whole map to the consumer exactly once and becomes completed with its map unchanged; on a completed or cancelled batch it does nothing |
| CompactingBatch.Cancel | src/test/java/pro/landlabs/pricing/common/CompactingBatchTest.java:138-148 | an open batch discards its map and becomes cancelled without publishing; otherwise nothing changes |
| CompactingBatch.ApplyKeepsWf | src/test/java/pro/landlabs/pricing/common/CompactingBatchTest.java:43-56 | whatever sequence of add, complete and cancel calls is made, the consumer receives at most one map, only from a completed batch, and that map is the batch's final contents |
| CompactingBatch.NoCompleteNoPublish | src/test/java/pro/landlabs/pricing/common/CompactingBatchTest.java:33-41 | any sequence of calls without a complete leaves the consumer's log as it was |
| CompactingBatch.CancelledNeverPublishes | src/test/java/pro/landlabs/pricing/common/CompactingBatchTest.java:138-148 | once cancelled, no sequence of calls changes the batch, so a later complete publishes nothing |
| CompactingBatch.ScenarioNoPublishUntilCompleted | src/test/java/pro/landlabs/pricing/common/CompactingBatchTest.java:33-41 | an add on a fresh batch is accepted and publishes nothing |
| CompactingBatch.ScenarioPublishSingleEntry | src/test/java/pro/landlabs/pricing/common/CompactingBatchTest.java:43-56 | add(k, v) then complete publishes exactly one map, {k: v}, of size 1 |
| CompactingBatch.ScenarioPublishMultipleEntries | src/test/java/pro/landlabs/pricing/common/CompactingBatchTest.java:58-78 | two adds with distinct keys then complete publish exactly one map of size 2 holding both bindings |
| CompactingBatch.ScenarioOverwriteIfLater | src/test/java/pro/landlabs/pricing/common/CompactingBatchTest.java:80-102 | a strictly later value for a key replaces the older one in the published map; the other key is unchanged and the size is 2 |
| CompactingBatch.ScenarioKeepIfNotLater | src/test/java/pro/landlabs/pricing/common/CompactingBatchTest.java:104-126 | a value not later than the stored one (earlier or equal) does not replace it; the other key is unchanged and the size is 2 |
| CompactingBatch.ScenarioCancel | src/test/java/pro/landlabs/pricing/common/CompactingBatchTest.java:138-148 | add, cancel, complete publishes nothing |
| LatestValueStore.Accept | src/test/java/pro/landlabs/pricing/ws/BatchControllerTest.java:109-113 | accepting a snapshot keeps every stored key, adds every snapshot key, and gives each key the merge of its stored and incoming values (the incoming one when unseen, the stored one when not in the snapshot) |
| LatestValueStore.AcceptMatchesDirectAdds | src/test/java/pro/landlabs/pricing/ws/BatchControllerTest.java:109-113 | for an associative merge (the latest-timestamp rule is one), publishing a batch's compacted snapshot into the store leaves it exactly as adding the batch's entries to the store one by one would |
| LatestValueStore.LaterWinsAcceptMatchesDirectAdds | src/test/java/pro/landlabs/pricing/ws/BatchControllerTest.java:109-113 | with the service's latest-timestamp rule, completing a batch leaves the store exactly as adding the batch's entries to the store one by one would: compaction across batches and within a batch agree |
| LatestValueStore.AcceptKeepsLatest | src/test/java/pro/landlabs/pricing/ws/BatchControllerTest.java:109-113 | under the latest-timestamp rule, publishing never moves a stored key back in time; every key of the snapshot ends up at least as late as its snapshot value; each stored value is the previous one or the snapshot's, and a tie keeps the previous one |
| LatestValueStore.CompletionOrderMattersOnlyOnTies | src/test/java/pro/landlabs/pricing/common/CompactingBatchTest.java:25-26 | two snapshots published in either order leave the same value for a key, unless both carry that key with exactly equal timestamps |
| BatchRegistry.CreateBatch | src/test/java/pro/landlabs/pricing/ws/BatchControllerTest.java:51-57 | the id returned is greater than 0 and was not in the directory; a fresh open empty batch is recorded under it, the store is unchanged and the invariant is kept |
| BatchRegistry.AddChunk | src/test/java/pro/landlabs/pricing/ws/BatchControllerTest.java:59-81 | an id not in the directory is batch-not-found; an empty chunk is bad input; a batch no longer open is batch-not-found; an open batch always accepts a non-empty chunk, and then only that batch's map changes, to the chunk's entries added in order, and the store is untouched |
| BatchRegistry.Complete | src/test/java/pro/landlabs/pricing/ws/BatchControllerTest.java:138-151 | fails exactly when the id is not in the directory, with batch-not-found; an open batch becomes completed and its map is merged into the store; on a cancelled or completed batch it is accepted and changes nothing |
| BatchRegistry.Cancel | src/test/java/pro/landlabs/pricing/ws/BatchControllerTest.java:153-160 | fails exactly when the id is not in the directory, with batch-not-found; otherwise only that batch is cancelled and the store is untouched |
| BatchRegistry.GetLatest | src/test/java/pro/landlabs/pricing/ws/BatchControllerTest.java:112-141 | answers a price lookup from the store alone and fails only with not-found; BatchRegistry.GetLatestAnswersFromCompleted states what the answer means in terms of the batches |
| BatchRegistry.GetLatestAnswersFromCompleted | src/test/java/pro/landlabs/pricing/ws/BatchControllerTest.java:126-141 | an instrument has a price if and only if some completed batch delivered a value for it; the answer is one of those values and no completed batch delivered a later one; open and cancelled batches deliver nothing |
| BatchRegistry.Run | src/test/java/pro/landlabs/pricing/ws/BatchControllerTest.java:83-114 | any sequence of create, add-chunk, complete and cancel requests keeps the registry invariant: ids positive and below the counter, every batch's lifecycle invariant, and every stored price equal to one of the values the completed batches delivered for that instrument, with the latest timestamp among them |
| BatchRegistry.OnlyCompleteWritesStore | src/test/java/pro/landlabs/pricing/ws/BatchControllerTest.java:126-141 | any sequence of requests without a complete leaves the store, and so every price answer, unchanged |
| BatchRegistry.PricesNeverMoveBack | src/test/java/pro/landlabs/pricing/ws/BatchControllerTest.java:109-113 | once an instrument has a price, every later state of the service still has one, at least as late |
| BatchRegistry.NeverIssuedIsNotFound | src/test/java/pro/landlabs/pricing/ws/BatchControllerTest.java:144-160 | on an id never issued, adding a chunk, completing and cancelling all fail with batch-not-found |
| BatchRegistry.ScenarioUnknownBatch | src/test/java/pro/landlabs/pricing/ws/BatchControllerTest.java:59-65 | on a fresh service, posting to id 7, and completing or cancelling id 333, fail with batch-not-found |
| BatchRegistry.ScenarioPostToNewBatch | src/test/java/pro/landlabs/pricing/ws/BatchControllerTest.java:67-81 | a freshly created batch has a positive id and accepts a non-empty chunk |
| BatchRegistry.ScenarioPostAndRead | src/test/java/pro/landlabs/pricing/ws/BatchControllerTest.java:83-114 | create, chunk [p1, p2], chunk [p2, p3], complete all succeed, and afterwards p1's instrument has a price at least as late as p1 |
| BatchRegistry.ScenarioCancelledNeverVisible | src/test/java/pro/landlabs/pricing/ws/BatchControllerTest.java:116-142 | a price posted to an open batch is not found; cancel and then complete of that batch are both accepted, and the price is still not found |

## Left out

- The implementation classes (`CompactingBatch`, `BatchController`, the batch registry and the price store) are not part of this model's sources. Their behaviour is reconstructed from the tests that exercise them, and the class names above are the tests' names.
- HTTP routing, status codes, content types and the error-message text of `GlobalExceptionHandler` are transport. Outcomes are `Ok`, `BatchNotFound`, `NotFound` and `BadInput`.
- JSON encoding and decoding of chunks is left out. So are the missing-body and corrupted-body tests (`BatchControllerTest.java:170-182`), which exercise request decoding. The model receives a chunk as an already-decoded sequence of (instrument, price) pairs.
- `BatchControllerTest.java:163-167` requests a path the service does not route, so its 404 says nothing about the store and is not modelled.
- Locking, per-batch independence under concurrency and Spring wiring are left out. The model is sequential: each request is one atomic transition.
- Joda `DateTime` values are integer timestamps. The test's `isBefore` becomes `<` on those integers, and time zones are not modelled. Random prices and instrument ids are universally quantified parameters.
- The merge function is modelled as a total function `(existing, incoming) -> winner`. A merge that throws is not modelled.
- BatchRegistry.CreateBatch: proves only that the id is positive and not already in the directory. Uniqueness over the service's whole lifetime and the exact id sequence are not asserted by the tests. The model's counter starting at 1 is one implementation that satisfies them.
- Batches left open are never expired. No expiry exists in the system, and none is invented here.
- Completing an already-completed batch and cancelling a completed batch are not asserted by the tests. The model answers both with an accepted no-op, extending the cancel-then-complete rule of `BatchControllerTest.java:138-139` to every resolved batch. A registry that removed resolved ids would answer `BatchNotFound` to both.
- Adding a non-empty chunk to a resolved batch is not asserted by the tests. The model answers `BatchNotFound`, because the accumulator refuses `add` outside `Open` and the service reports that refusal as an unknown batch.
- An empty chunk is rejected with `BadInput`, and this check comes before the batch's state is looked at. The tests only show that a request with no body is rejected as bad input (`BatchControllerTest.java:170-174`), which is request decoding. The empty decoded chunk is the model's counterpart of that case.
- Snapshot independence (a published map is never changed afterwards) holds trivially, because maps are values in the model.
