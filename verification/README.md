# aux-storage: verified model of the storage core

A Dafny model of the parts of aux-storage in which correctness depends on reasoning across
operations, and proofs of what those parts promise. The native stores are abstracted to a map
from byte keys to values with atomic commits; everything above them is modelled as the code
does it, with its branches, limits, constants and error conditions.

## What is modelled and proved

**Chunked values** (`Bytes`, `ValueLayout`, `Lowering`, `ValueAllowance`, `ValueReads`,
`BatchReads`). Logical puts and deletes are lowered to a head row, 64 KiB chunk rows and a range
clear. After any run of batches the physical rows represent a plain map from key to value, and a
batch read returns exactly what that map holds (`Lowering.RunRefines`, `BatchReads.ReadAfterRun`).
The cleared range covers the chunk rows of one key and of no other, and the chunk rows in the
store are exactly those the current heads name (`ValueLayout.ClearRange`,
`Lowering.ChunkRowsAreNamed`). Admission depends on the number of keys, the limits and the logical
sizes, never on how values are split (`BatchReads.ReadExact`).

**Versionstamps, footprint, item reads** (`Versionstamps`, `Footprint`, `ItemCodec`,
`PrefixReads`). Stamping commutes with lowering, and stamped puts are accepted exactly by the sizes
of their prefixes and values; the computed byte bound covers every admitted batch, and when there is
one and what it is are exact; the 22-byte prefix reader yields the revision a full read would.

**Chaos checkers** (`Bitmask`, `Serializability`, `SharedKeyAudit`, `PrefixMinimizer`,
`BackgroundLease`, `PublishAudit`). The memoised search is sound and complete although states are
marked visited on entry; the screen in front of it never contradicts it; a key whose outcomes are
all known and whose history is short enough to search is reported exactly when no order of its
events could have happened, said of the events themselves; the minimiser ends in a
local minimum for an arbitrary checker; in a clean lease history a worker keeps its lease until it
is taken over after that worker's own deadline, so commits are exclusive; the publish audit accepts
exactly the acceptable snapshots.

**System stream** (`StreamCatalog`, `SystemStream`, `StreamRuns`, `StreamSafety`). Writes and
lineage splits run concurrently: an attempt reads one committed state and commits on a later one
if the rows it protected are unchanged. A run is the sequence of committed states, and each commit
names the earlier state it read. Over every run no shard offset is handed out twice, offsets have
no gaps, sequence rows never go back, and a sealed lineage never gets an offset at or past its
seal.

**Queue messages** (`KeyedRows`, `TimedKeys`, `Scans`, `QueueKeys`, `QueueMessages`, `QueueReads`,
`QueueCounts`) and **deliveries** (`Deliveries`, `DeliveryRuns`). Index rows agree with record
rows after every run; due reads never report a mismatch; counts are the numbers of receivable, in
flight and postponed messages; receipts, claims and settlements are fenced over whole runs, and a
claimed delivery is due again once its lease is over.

**Table catalog** (`TableCatalog`, `CatalogOperations`, `CatalogRuns`). Over every run of create,
update, barrier, delete and reclaim: one live table per name, identifiers never reused, stamp
reads never stale, and a stamp determines its metadata forever. What was created or updated is what
is read, and nothing else changes (`CatalogOperations.CreateExact`, `UpdateExact`). The attempt's operations are proved
to perform exactly the steps of such a run (`CatalogRuns.Perform`).

**Waves** (`Waves`). Greedy wave planning accepts exactly the sound changes with unique keys for
which no change and the open wave before it are together more than a machine word can count, and
it uses the fewest batches of any contiguous division. Changes whose sizes add up to a machine
word, as those held in one address space do, are always countable (`Waves.CountableGroups`).

## Findings

- A lineage split is not refused when it would exceed the 128 entries a history may have. The
  64th split leaves 129 lineages, the state no longer decodes, and no attempt can commit after it.
  `StreamSafety.SplitDecodesExactly` gives the exact condition on the state a split commits on (at
  most 126 lineages), `StreamSafety.DecodesExactly` the one on the run, and
  `StreamSafety.UndecodableRunExists` a run that gets there.
- The item encoder accepts an empty image and the decoder refuses it; the round trip holds
  exactly for non-empty images (`ItemCodec.DecodeUndoesEncode`).
- The shared-key audit leaves a key with an unknown outcome unclassified only if an audit read names
  it or its history is too long to search. Otherwise it judges the key by its known outcomes: a read
  that saw an unknown write is reported although the write may have happened
  (`SharedKeyAudit.UnknownPutMisjudged`, with events in `SharedKeyAudit.UnknownPutExists`).
  `SharedKeyAudit.CheckSharedKeyAudits` says exactly which keys are reported, and that for searched
  keys without unknown outcomes the report is exact.
- `is_claimable` does not look at the creation time while `due_at` does; they agree exactly on
  deliveries that are not from the future (`Deliveries.DueVersusClaimable`,
  `Deliveries.ClaimableBeforeDue`). Claims of the key-value backend start from the due index, so they
  are not affected; the in-memory provider selects by `is_claimable` alone.

## Assumptions

- One fixed native value limit per store; logical keys lie outside the `\0chunk/` family; keys of
  fixed formats never hold chunked values. The lowering theorems carry these as a profile.
- Records are stored as values: the serialiser is taken as injective. Index rows and keys are
  modelled byte by byte.
- An attempt commits atomically on rows that are what it read under conflict protection. For
  queue, delivery and catalog operations this makes an attempt one step on the current state; for
  the system stream the read and the commit are separate.
- A new receipt handle was never used before in its queue.
- The route of a stream write (a hash of its key) is any open lineage.

## Model

| member | source | states |
|---|---|---|
| Bytes.PrefixRangeExact | crates/kv-backend/src/range.rs:122-135 | the half-open range from a prefix to its end holds exactly the keys with that prefix |
| Bytes.PrefixEndExists | crates/kv-backend/src/range.rs:122-135 | a prefix has an end exactly when some byte is not 0xFF, and the end is no longer than the prefix |
| Bytes.IncrementPrefix | crates/kv-backend/src/range.rs:127-135 | the pop-and-increment loop computes the least key above every key with the prefix |
| Bytes.BeOrder | crates/kv-backend/src/value_layout.rs:145-151 | big-endian byte order is numeric order |
| ValueLayout.ChunksRebuild | crates/kv-backend/src/value_encoding.rs:41-73 | the chunks of a value concatenate to it |
| ValueLayout.Encode | crates/kv-backend/src/value_encoding.rs:41-73 | the loop produces the head of the chosen layout and exactly the 64 KiB cuts |
| ValueLayout.PreparedExactly | crates/kv-backend/src/value_encoding.rs:21-97 | a value is prepared exactly when it is small enough and its rows fit the native limit, inline exactly when it fits with its tag, and every row it is stored in fits |
| ValueLayout.HeaderRoundTrip | crates/kv-backend/src/value_layout.rs:71-90 | parsing undoes writing a head, and every accepted head is the one written for what was parsed |
| ValueLayout.ChunkLengthExact | crates/kv-backend/src/value_layout.rs:92-106 | a chunk is accepted exactly under the number and with the length of a cut of the value |
| ValueLayout.ChunkPrefixesDisjoint | crates/kv-backend/src/value_layout.rs:109-166 | no key has the chunk prefix of two logical keys, prefixes of each other included |
| ValueLayout.ChunkKeysDistinct | crates/kv-backend/src/value_layout.rs:109-166 | chunk keys determine their key and number, and are never logical keys |
| ValueLayout.ClearRange | crates/kv-backend/src/value_layout.rs:125-138 | the cleared range holds exactly the keys with the chunk prefix |
| Lowering.LowerBatchAdmits | crates/kv-backend/src/mutation_preparation.rs:31-55 | a batch is lowered exactly when each of its changes is admissible under the native limit |
| Lowering.ExpandMutations | crates/kv-backend/src/mutation_preparation.rs:31-55 | preparing everything before expanding anything gives the lowering of the batch, or its first error |
| Lowering.ExpandInto | crates/kv-backend/src/mutation_preparation.rs:165-194 | one prepared change appends exactly its clear, chunk puts and head |
| Lowering.ClearEffect | crates/kv-backend/src/value_layout.rs:125-138 | clearing removes every chunk row of the key and nothing else |
| Lowering.ChunkablePutEffect | crates/kv-backend/src/mutation_preparation.rs:165-194 | a chunkable put leaves the rows of its value and no stale chunk row |
| Lowering.PutRefines | crates/kv-backend/src/mutation_preparation.rs:130-194 | a lowered put represents the logical put, over inline and chunked values alike |
| Lowering.DeleteRefines | crates/kv-backend/src/mutation_preparation.rs:130-194 | a lowered delete represents the logical delete |
| Lowering.ChangeRefines | crates/kv-backend/src/mutation_preparation.rs:129-195 | every lowered change represents its logical change |
| Lowering.BatchRefines | crates/kv-backend/src/mutation_preparation.rs:31-55 | a lowered batch represents its logical batch |
| Lowering.RunRefines | crates/kv-backend/src/mutation_preparation.rs:31-55 | after any run of batches the physical rows represent the logical map |
| Lowering.HeadParses | crates/kv-backend/src/value_layout.rs:71-90 | the head of a represented value parses to its layout, length and chunk count |
| Lowering.ChunkRowsAreNamed | crates/kv-backend/src/value_layout.rs:109-166 | in every represented store the chunk rows are exactly those named by the chunked heads |
| ValueAllowance.KvValueAllowance.constructor | crates/kv-backend/src/value_allowance.rs:13-18 | an allowance starts with its two limits |
| ValueAllowance.KvValueAllowance.RequireValueBytes | crates/kv-backend/src/value_allowance.rs:59-68 | a value is admitted exactly within both limits, and only then charged |
| ValueAllowance.KvValueAllowance.ForHeadReads | crates/kv-backend/src/value_allowance.rs:20-35 | the head budget is granted exactly when it is representable, with its exact limits |
| ValueReads.DecodeBounded | crates/kv-backend/src/value_hydration.rs:16-39 | a head is admitted exactly when it parses and its logical length fits, and describes the slot |
| ValueReads.TakeHeads | crates/kv-backend/src/value_hydration.rs:54-88 | the loop succeeds exactly when all heads parse and their logical lengths are admitted, takes inline values in place and plans the chunk runs |
| ValueReads.PrepareReads | crates/kv-backend/src/value_hydration.rs:54-88 | planning succeeds exactly on parsing, addressable and admitted heads, and yields the plan of the batch |
| ValueReads.PrepareChunkKeys | crates/kv-backend/src/value_hydration.rs:90-108 | all chunk keys of the plan in order, refused exactly when a chunked key is not addressable |
| ValueReads.ValidateChunks | crates/kv-backend/src/value_hydration.rs:110-124 | accepts exactly row lists in which every run has all its rows with their exact lengths |
| ValueReads.HydrateValues | crates/kv-backend/src/value_hydration.rs:126-146 | writes every rebuilt value back into its slot, exactly when all runs are intact |
| ValueReads.NativeGetBatch | crates/kv-backend/src/rocksdb/transaction.rs:266-283 | rows are copied exactly when the allowance admits all their sizes |
| ValueReads.ChunkBudgetSuffices | crates/kv-backend/src/value_hydration.rs:148-167 | the exact chunk budget admits the chunk rows of intact values |
| ValueReads.RunsIntactExact | crates/kv-backend/src/value_hydration.rs:110-124 | the fetched runs are intact exactly when the store has every chunk of every slot with its length |
| ValueReads.ResolvedLength | crates/kv-backend/src/value_hydration.rs:110-146 | whatever the store holds, a value that resolves has exactly the length its head announces |
| ValueReads.ResolveValues | crates/kv-backend/src/value_hydration.rs:148-167 | resolution succeeds exactly on resolvable slots and then replaces each by its value |
| BatchReads.GetBatchAdmitted | crates/kv-backend/src/backend.rs:272-302 | a batch read succeeds exactly when readable and returns each key's resolved value |
| BatchReads.SlotMeans | crates/kv-backend/src/value_hydration.rs:16-146 | the rows of a represented key resolve to its logical value, whatever the layout |
| BatchReads.HeadBudgetSuffices | crates/kv-backend/src/value_allowance.rs:20-35 | the head budget never refuses what the logical budget admits |
| BatchReads.ReadExact | crates/kv-backend/src/backend.rs:272-302 | a batch is admitted exactly when its head budget is representable and every logical value and their total fit, and reads exactly the logical values |
| BatchReads.ReadAfterRun | crates/kv-backend/src/mutation_preparation.rs:31-55 | after any run of batches a batch read returns exactly what the plain map holds |
| BatchReads.TrimPage | crates/kv-backend/src/value_layout.rs:282-312 | keeps the longest prefix within the byte budget, always the first entry, and says whether more remains; fails exactly on a bad head or an overflowing sum among the kept entries and the next |
| BatchReads.TrimPages | crates/kv-backend/src/value_layout.rs:314-347 | trims every page and sums the kept logical bytes; fails exactly if a page does or the kept sum overflows |
| BatchReads.RestorePages | crates/kv-backend/src/value_layout.rs:349-385 | the pages keep their shape and together hold exactly the resolved values in order; only a missing value fails |
| BatchReads.PlannedPagesResolve | crates/kv-backend/src/value_layout.rs:314-347 | the exact hydration allowance never refuses the kept entries |
| BatchReads.ResolvePages | crates/kv-backend/src/value_layout.rs:314-369 | scanned pages always resolve, each to its logical values; the bytes returned are within the budget unless one entry is returned, and with the next entry they would not be |
| Versionstamps.TryNew | crates/kv-backend/src/versionstamped_value.rs:20-71 | a stamp plan exists exactly when plannable, with the stamped row taken out of the lowered changes |
| Versionstamps.OperandsFit | crates/kv-backend/src/versionstamped_value.rs:20-71 | the stamp lies inside its row and every staged operand fits the native limit |
| Versionstamps.StampCommutes | crates/kv-backend/src/versionstamped_value.rs:20-71 | staging the plan and letting the driver write any stamp reads back as the value with the stamp at its offset |
| Versionstamps.LowerStampedAdmits | crates/kv-backend/src/mutation_preparation.rs:57-127 | stamped puts are lowered exactly when each prefix leaves room for the stamp and each value fits the limit inline or in chunks |
| Versionstamps.ExpandVersionstampedPuts | crates/kv-backend/src/mutation_preparation.rs:57-127 | the loops succeed exactly when every stamped put is admissible and give the lowering of the stamped puts, or its first error |
| Versionstamps.StampedRowsAreChunkRows | crates/kv-backend/src/mutation_preparation.rs:83-127 | once stamped, the rows are the chunk rows and the head of the resolved key |
| Versionstamps.StampedKeysRefine | crates/kv-backend/src/mutation_preparation.rs:57-127 | stamped-key puts under fresh keys represent the logical puts of the resolved keys |
| Footprint.SumOfCeilings | crates/kv-backend/src/value_layout.rs:35-69 | the chunks of a batch are at most the chunks of its total plus its records less one |
| Footprint.BatchWithinBound | crates/kv-backend/src/record_footprint.rs:89-170 | no admitted batch within its allowances costs more native bytes and metadata than the bound |
| Footprint.BoundExact | crates/kv-backend/src/record_footprint.rs:89-170 | there is a bound exactly when the conflict charges of a non-empty batch are known and the overhead of a record and the whole charge fit the machine word; the bound is that charge |
| Footprint.BoundIsClosedForm | crates/kv-backend/src/record_footprint.rs:89-170 | where conflicts are not charged the bound is the closed form of the cost of a batch and no more |
| ItemCodec.EncodePrimaryItem | crates/kv-backend/src/item_codec.rs:80-104 | builds the encoding field by field; refused exactly for a provenance or size out of range |
| ItemCodec.DecodeUndoesEncode | crates/kv-backend/src/item_codec.rs:17-104 | decoding undoes encoding exactly for non-empty images |
| ItemCodec.EncodeUndoesDecode | crates/kv-backend/src/item_codec.rs:17-104 | every accepted row is the encoding of what was decoded |
| ItemCodec.RevisionFromPrefix | crates/kv-backend/src/item_codec.rs:67-78 | the revision read from any long enough prefix is that of the whole row |
| PrefixReads.LoadValuePrefixes | crates/kv-backend/src/value_prefix.rs:26-125 | succeeds exactly when prefix-readable and returns each key's prefix and length |
| PrefixReads.PrefixMeans | crates/kv-backend/src/value_prefix.rs:26-125 | the prefix of a represented key is the prefix of its logical value |
| PrefixReads.GroupAdmitted | crates/kv-backend/src/item_read.rs:112-148 | the head budget of a key group never refuses it |
| PrefixReads.LoadLiveRevisions | crates/kv-backend/src/item_read.rs:112-148 | reading in groups yields, for every key in order, the revision in its logical value |
| PrefixReads.FastPathAgrees | crates/kv-backend/src/item_read.rs:112-148 | after any run, where every value of a batch read decodes, the prefix reads succeed and give for every key the revision in its decoded item |
| Bitmask.SetBit | crates/fdb-chaos-model/src/shared_key.rs:311-351 | setting a bit adds that member; testing it tests membership |
| Bitmask.AndNotZero | crates/fdb-chaos-model/src/shared_key.rs:311-351 | no bit is left exactly when the members of one mask are members of the other |
| Bitmask.CompleteMask | crates/fdb-chaos-model/src/shared_key.rs:353-355 | the complete mask is the one with every member |
| Serializability.PredecessorMasks | crates/fdb-chaos-model/src/shared_key.rs:284-300 | each mask holds exactly the operations that must come first; the count is the number of such pairs |
| Serializability.ReadyByMasks | crates/fdb-chaos-model/src/shared_key.rs:311-351 | the mask tests of the loop are exactly the readiness of an operation |
| Serializability.ScheduleFirst | crates/fdb-chaos-model/src/shared_key.rs:311-351 | a ready operation in front of a completion is a completion |
| Serializability.FirstIsReady | crates/fdb-chaos-model/src/shared_key.rs:311-351 | every completion starts with a ready operation |
| Serializability.Search | crates/fdb-chaos-model/src/shared_key.rs:311-351 | the memoised search succeeds exactly on completable states, with a visited set shared by all branches |
| Serializability.CheckSerializable | crates/fdb-chaos-model/src/shared_key.rs:260-282 | true exactly when some order respects precedence, applies every operation and ends in what every final read saw |
| SharedKeyAudit.UnknownExact | crates/fdb-chaos-model/src/shared_key.rs:107-144 | a key is unknown exactly when some event of it ended unknown |
| SharedKeyAudit.ExpectationMatchesOps | crates/fdb-chaos-model/src/shared_key.rs:107-144 | the collected expectation holds exactly what the key's operations write and whether one deletes |
| SharedKeyAudit.OperationMeans | crates/fdb-chaos-model/src/shared_key.rs:227-249 | the operation of an event, applied to a value, gives exactly what the event witnesses, and cannot happen where the event could not |
| SharedKeyAudit.WrittenByEvents | crates/fdb-chaos-model/src/shared_key.rs:227-249 | the operations of a key write exactly what its committed writes wrote |
| SharedKeyAudit.CollectAll | crates/fdb-chaos-model/src/shared_key.rs:107-144 | one pass collects the expectation and operations of every shared key |
| SharedKeyAudit.ScreenIsSound | crates/fdb-chaos-model/src/shared_key.rs:151-187 | a final read the screen refuses belongs to a history with no legal serial order |
| SharedKeyAudit.RefusedExact | crates/fdb-chaos-model/src/shared_key.rs:151-187 | the screen refuses a read exactly when every outcome is known and nobody wrote the value it saw, or it saw nothing although somebody wrote and nobody deleted |
| SharedKeyAudit.ImpossibleHasNoOrder | crates/fdb-chaos-model/src/shared_key.rs:302-372 | a key created twice, a condition refused with nothing written, a lost write, a read of a value nobody wrote or of one deleted before has no legal serial order |
| SharedKeyAudit.HappenedIsSerializable | crates/fdb-chaos-model/src/shared_key.rs:302-372 | if the events of a key took place in some order, one after another and in keeping with what each saw, its operations have a legal serial order |
| SharedKeyAudit.SerializableHappened | crates/fdb-chaos-model/src/shared_key.rs:302-372 | and conversely |
| SharedKeyAudit.ImpossibleNeverHappened | crates/fdb-chaos-model/src/shared_key.rs:302-372 | an impossible history did not take place, whatever was read at the end |
| SharedKeyAudit.CheckSharedKeyAudits | crates/fdb-chaos-model/src/shared_key.rs:99-225 | says of every key whether it is reported and whether it is left unclassified; a history that happened is never reported, and with no unknown outcome and at most 24 operations a key is reported exactly when its events cannot have happened in any order |
| SharedKeyAudit.UnknownPutMisjudged | crates/fdb-chaos-model/src/shared_key.rs:151-191 | without an audit read, a read that saw a put of unknown outcome has no legal order among the known outcomes, although it has one if the put happened |
| SharedKeyAudit.UnknownPutExists | crates/fdb-chaos-model/src/shared_key.rs:107-144 | two events of that kind |
| PrefixMinimizer.ShortenGroup | crates/fdb-chaos-runner/src/minimize.rs:160-173 | cuts one group to its shortest candidate that keeps the signatures, or shows there is none |
| PrefixMinimizer.MinimizePrefixes | crates/fdb-chaos-runner/src/minimize.rs:151-203 | for any checker: terminates, lengthens nothing, keeps the required signatures, and no single group can be cut further |
| PrefixMinimizer.MinimizeArtifact | crates/fdb-chaos-runner/src/minimize.rs:54-75 | the minimised histories show every original anomaly and are locally minimal |
| BackgroundLease.SortByTime | crates/fdb-chaos-model/src/background_lease.rs:91-95 | a permutation in order of time, earlier positions first among equals |
| BackgroundLease.ApplyAcquire | crates/fdb-chaos-model/src/background_lease.rs:124-164 | an acquisition is an anomaly exactly when it is expired or interrupts another worker, and only otherwise takes the lease |
| BackgroundLease.ApplyRenew | crates/fdb-chaos-model/src/background_lease.rs:166-206 | a renewal is an anomaly exactly when it is expired or its worker does not hold the lease |
| BackgroundLease.CheckCommit | crates/fdb-chaos-model/src/background_lease.rs:208-239 | a commit is an anomaly exactly when its worker does not hold the lease |
| BackgroundLease.CheckEvents | crates/fdb-chaos-model/src/background_lease.rs:91-122 | the report is empty or starts with the first illegal event of the time-ordered history |
| BackgroundLease.CleanExactlyWhenLegal | crates/fdb-chaos-model/src/background_lease.rs:91-122 | the report is empty exactly when every event is legal by the last grant before it |
| BackgroundLease.TakeoverBetween | crates/fdb-chaos-model/src/background_lease.rs:124-164 | between two holders there is a takeover strictly after the deadline that stood |
| BackgroundLease.FirstTakeover | crates/fdb-chaos-model/src/background_lease.rs:124-164 | a worker holds a lease without interruption until it is taken over from that very worker, strictly after its own deadline |
| BackgroundLease.Exclusion | crates/fdb-chaos-model/src/background_lease.rs:91-239 | in a clean history commits are made by the unexpired holder; between commits of different workers the earlier worker keeps the lease until a takeover after its own deadline, the later one gets it by a takeover from another worker, and the times differ strictly |
| PublishAudit.CollectUniqueSubscriptions | crates/fdb-chaos-model/src/pubsub.rs:141-147 | comparing sizes accepts exactly lists without repetition |
| PublishAudit.CheckDeliveryFanout | crates/fdb-chaos-model/src/pubsub.rs:149-179 | accepts exactly faithful deliveries that are none or fill the subscription set |
| PublishAudit.FanoutIsBijection | crates/fdb-chaos-model/src/pubsub.rs:149-179 | with unique records, filling the subscriptions means one delivery for each |
| PublishAudit.CheckAttemptEffects | crates/fdb-chaos-model/src/pubsub.rs:110-139 | accepts an attempt exactly when it has nothing, one matching intent or a full fanout, as its outcome and phase allow |
| PublishAudit.CheckPublishAttempts | crates/fdb-chaos-model/src/pubsub.rs:47-83 | accepts exactly the acceptable snapshots |
| StreamCatalog.SegmentedKeysInjective | crates/kv-backend/src/stream_history.rs:547-554 | rows share an address only with the same family and identifier, and a family's range holds only that family |
| StreamCatalog.AncestryEnds | crates/stream-provider/src/system_stream/catalog.rs:265-275 | the walk over parents accepts exactly the acyclic ancestries |
| StreamCatalog.CollectActiveShards | crates/stream-provider/src/system_stream/catalog.rs:231-251 | accepts exactly distinct active shards, and finds one exactly if there is one |
| StreamCatalog.TwoChildren | crates/stream-provider/src/system_stream/catalog.rs:277-288 | accepts exactly two children on different shards |
| StreamCatalog.ValidateCatalog | crates/stream-provider/src/system_stream/catalog.rs:224-290 | accepts exactly the valid lineage catalogs |
| StreamCatalog.DecodeRows | crates/kv-backend/src/stream_history.rs:471-545 | accepts exactly rows that agree with their scope, address, bounds and counterpart |
| StreamCatalog.DecodeHistory | crates/kv-backend/src/stream_history.rs:456-504 | succeeds exactly on snapshots that are stream histories |
| SystemStream.KvSystemWriteState.constructor | crates/kv-backend/src/stream_history.rs:188-196 | an attempt starts from a decoded history with nothing reserved |
| SystemStream.KvSystemWriteState.Reserve | crates/kv-backend/src/stream_history.rs:198-239 | gives the shard's next offset past the attempt's own writes; the row comparisons always hold and only an exhausted offset space fails |
| SystemStream.KvSystemWriteState.DrainMutations | crates/kv-backend/src/stream_history.rs:241-253 | yields each selected sequence row once, at its final value |
| StreamRuns.ShapeValid | crates/stream-provider/src/system_stream/split.rs:305-329 | accepts exactly well-shaped split requests |
| StreamRuns.WriteSplit | crates/kv-backend/src/stream_split.rs:38-175 | succeeds exactly on splittable requests, and its row changes have the effect of the split |
| StreamRuns.SoundDecodes | crates/kv-backend/src/stream_history.rs:471-545 | a sound state decodes exactly when it has at most 128 lineages |
| StreamRuns.WriteKeepsSound | crates/kv-backend/src/stream_history.rs:181-254 | committed writes keep every reachable state sound |
| StreamRuns.SplitKeepsSound | crates/kv-backend/src/stream_split.rs:38-175 | committed splits keep every reachable state sound: forest, bounds, seals, receipts |
| StreamSafety.RunSound | crates/kv-backend/src/stream_history.rs:329-441 | every committed state of every run is sound |
| StreamSafety.NoOffsetTwice | crates/kv-backend/src/stream_history.rs:181-254 | over every interleaving no shard offset is handed out twice |
| StreamSafety.SequencesNeverGoBack | crates/kv-backend/src/stream_history.rs:198-253 | sequence rows never go back and never disappear |
| StreamSafety.SealRespected | crates/kv-backend/src/stream_split.rs:38-175 | a lineage sealed in any state got all its offsets before, and below its seal |
| StreamSafety.NoGaps | crates/stream-provider/src/system_stream/history.rs:239-277 | every offset from a lineage's first to its next was handed out |
| StreamSafety.DecodesExactly | crates/stream-provider/src/system_stream/history.rs:190-197 | a state decodes exactly while at most 63 splits have happened, and only the last state of a run can fail to |
| StreamSafety.SplitDecodesExactly | crates/kv-backend/src/stream_split.rs:38-175 | what a split leaves decodes exactly if it commits on at most 126 lineages |
| StreamSafety.UndecodableRunExists | crates/kv-backend/src/stream_split.rs:38-175 | there is a run of 64 splits, all with well-formed identifiers, whose last state does not decode |
| StreamSafety.SplitsReplay | crates/stream-provider/src/system_stream/history.rs:202-234 | a committed split stays replayable in every later state |
| TimedKeys.OrderedRoundTrip | crates/kv-backend/src/queue_message.rs:433-455 | ordered timestamps decode to themselves, both ways |
| TimedKeys.OrderedTimestampOrder | crates/kv-backend/src/queue_message.rs:433-435 | flipping the sign bit makes byte order the order of signed times |
| TimedKeys.TimedKeyOrder | crates/kv-backend/src/queue_message.rs:399-407 | index keys order by time, then identifier |
| TimedKeys.TimedRangeExact | crates/kv-backend/src/queue_message.rs:19-41 | the range up to now exists, stays in its scope and holds exactly the keys not later than now |
| TimedKeys.SuccessorKey | crates/kv-backend/src/queue_message.rs:329-334 | nothing lies between a key and that key with a zero byte |
| Scans.Scan | crates/kv-backend/src/rocksdb/transaction.rs:285-311 | a page is the first keys of the range in order, with a flag for the rest |
| QueueKeys.KeysInjective | crates/kv-backend/src/queue_message.rs:374-431 | message, due and receipt keys never meet and determine their parts |
| QueueKeys.DueKeyRoundTrip | crates/kv-backend/src/queue_message.rs:437-455 | decoding undoes encoding a due key, and only encoded keys decode |
| QueueKeys.DueValueRoundTrip | crates/kv-backend/src/queue_message.rs:409-427 | decoding undoes encoding a due value |
| QueueKeys.DueValueDecodes | crates/kv-backend/src/queue_message.rs:409-427 | only encoded due values decode |
| QueueMessages.WriteLookup | crates/kv-backend/src/queue_message.rs:217-248 | a rewrite leaves the record's new rows, none of its old ones and every other row |
| QueueMessages.WriteRefines | crates/kv-backend/src/queue_message.rs:217-248 | the rows after a rewrite are those of the updated messages |
| QueueMessages.EraseRefines | crates/kv-backend/src/queue_message.rs:250-288 | the rows after a delete are those of the remaining messages |
| QueueMessages.WriteMessageRecords | crates/kv-backend/src/queue_message.rs:177-215 | compare-and-set: stages the changes exactly when targets are distinct and unchanged |
| QueueMessages.DeleteMessageRecords | crates/kv-backend/src/queue_message.rs:250-288 | stages the deletions exactly when every record is still stored |
| QueueMessages.BatchRefines | crates/kv-backend/src/queue_message.rs:177-248 | a batch acts on the messages as its updates do in turn |
| QueueMessages.RunAgrees | crates/kv-backend/src/queue_message.rs:177-288 | after every run due and receipt rows agree with the message rows |
| QueueMessages.StepRetires | crates/kv-backend/src/queue_message.rs:177-288 | a write that replaces a receipt, or a delete of the message that has it, leaves no message with it |
| QueueMessages.RetiresExactly | crates/kv-backend/src/queue_message.rs:177-288 | a step takes a held receipt away exactly if it replaces or deletes it |
| QueueMessages.ReceiptStaysGone | crates/kv-backend/src/queue_message.rs:217-288 | a used receipt that no message holds is never held again |
| QueueReads.ReadDueMessages | crates/kv-backend/src/queue_message.rs:19-77 | reads one page and succeeds exactly when every row of it is the due row of a stored message, which it returns |
| QueueReads.DueEntryExact | crates/kv-backend/src/queue_message.rs:43-77 | on any rows a due row is accepted exactly when it is the due row, by key and value, of a stored message of the queue |
| QueueReads.DueReadsExact | crates/kv-backend/src/queue_message.rs:19-77 | on agreeing rows due reads never mismatch and return, in order of time and id, the first of exactly the visible messages |
| QueueReads.ReadMessagesByReceipt | crates/kv-backend/src/queue_message.rs:79-148 | resolves each receipt in order, and fails exactly when the row of one names no stored message that holds it |
| QueueReads.ResolveExact | crates/kv-backend/src/queue_message.rs:79-148 | on any rows a receipt resolves to nothing exactly when it has no row, and to a message exactly when its row names that stored message and the message holds it |
| QueueReads.ReceiptExact | crates/kv-backend/src/queue_message.rs:79-148 | a receipt resolves to the message holding it, and to nothing exactly when none does |
| QueueReads.OldReceiptNeverResolves | crates/kv-backend/src/queue_message.rs:79-148 | over every run, from the step that replaces a receipt or deletes its message, the receipt resolves to nothing for ever |
| QueueReads.ReceiptNeverComesBack | crates/kv-backend/src/queue_message.rs:79-148 | a receipt that resolved once and later did not never resolves again |
| QueueCounts.CountPage | crates/kv-backend/src/queue_message.rs:314-325 | one page adds exactly its rows to the saturating counters |
| QueueCounts.KindExact | crates/kv-backend/src/queue_message.rs:314-325 | on any rows a row is counted exactly when it is a due row, by the time, claim and expiry it holds |
| QueueCounts.CountQueueMessages | crates/kv-backend/src/queue_message.rs:290-336 | the paged count equals the one-pass count, fails exactly when a row does not decode, and on agreeing rows counts the receivable, in flight and postponed messages |
| QueueCounts.CountExact | crates/kv-backend/src/queue_message.rs:290-336 | on agreeing rows the count never fails and counts each live message of a class once |
| QueueCounts.CountsPartition | crates/kv-backend/src/queue_message.rs:314-325 | every message of a queue that has not expired is exactly one of receivable, in flight and postponed |
| Deliveries.DueVersusClaimable | crates/pubsub-provider/src/types.rs:398-426 | due by now means claimable and not created after now, and conversely |
| Deliveries.ClaimableBeforeDue | crates/pubsub-provider/src/types.rs:398-426 | a claimable delivery that is not due |
| Deliveries.TransitionsFence | crates/pubsub-provider/src/delivery_transition.rs:11-51 | a claim opens the next generation and shuts out older outcomes; a settlement shuts out all; neither touches the payload |
| Deliveries.ReplaceLookup | crates/kv-backend/src/pubsub_delivery.rs:133-162 | a replacement leaves the new rows, none of the old ones and every other row |
| Deliveries.ReplaceRefines | crates/kv-backend/src/pubsub_delivery.rs:16-162 | rows and due marks after a replacement are those of the updated deliveries |
| Deliveries.ReadExact | crates/kv-backend/src/pubsub_delivery.rs:51-67 | a read never fails on agreeing rows and returns the delivery |
| Deliveries.DueDeliveryExact | crates/kv-backend/src/pubsub_delivery.rs:69-131 | on any rows a mark is accepted exactly when it is the due mark of a stored delivery |
| Deliveries.ReadDueDeliveries | crates/kv-backend/src/pubsub_delivery.rs:69-131 | reads one page and succeeds exactly when every key of it is the due mark of a stored delivery, which it returns |
| Deliveries.DueReadsExact | crates/kv-backend/src/pubsub_delivery.rs:69-131 | on agreeing rows due reads never fail and return, in order, the first of exactly the due deliveries, all claimable |
| DeliveryRuns.MissingExact | crates/pubsub-provider/src/delivery_operations.rs:20-53 | the records written are exactly the proposed ones that are not stored, in their order |
| DeliveryRuns.PutDeliveryRecords | crates/pubsub-provider/src/delivery_operations.rs:20-53 | refuses repeated identities and large generations, and stages exactly the missing records, without ever meeting a conflict |
| DeliveryRuns.WriteDeliveryRecords | crates/kv-backend/src/pubsub_delivery.rs:16-49 | stages marks and records of new deliveries, and conflicts exactly if one is stored |
| DeliveryRuns.ReplaceDeliveries | crates/kv-backend/src/pubsub_delivery.rs:133-162 | stages the changes of every replacement, refused exactly when an identity changes |
| DeliveryRuns.ClaimMeans | crates/pubsub-provider/src/delivery_transition.rs:13-30 | a claim succeeds exactly for a claimable delivery, an owner, a lease beyond now and a generation left; it sets generation, owner, lease and update time and nothing else |
| DeliveryRuns.ClaimInAttempt | crates/pubsub-provider/src/delivery_operations.rs:103-125 | claims every delivery of the page, changing nothing but generation, owner, lease and update time, and stages the replacements; or nothing and some candidate cannot be claimed |
| DeliveryRuns.SettleInAttempt | crates/pubsub-provider/src/delivery_transition.rs:62-84 | settles a delivery exactly if the outcome names its current generation and owner, records the outcome, ends the claim and keeps what was accepted; otherwise nothing is staged |
| DeliveryRuns.GrantsStaged | crates/kv-backend/src/pubsub_delivery.rs:133-162 | the changes staged together act as the replacements in turn |
| DeliveryRuns.StepStaged | crates/pubsub-provider/src/delivery_operations.rs:20-125 | what creation, claims and settlements stage is what their steps do to the store |
| DeliveryRuns.RunFenced | crates/pubsub-provider/src/delivery_operations.rs:20-125 | in every reachable state rows and due marks agree and the grant and settlement logs are fenced |
| DeliveryRuns.RunFollows | crates/pubsub-provider/src/delivery_transition.rs:11-51 | no run loses a delivery, lowers a generation or changes an accepted payload |
| DeliveryRuns.ClaimedDueAgain | crates/pubsub-provider/src/types.rs:398-426 | over every run a claimed delivery that is neither settled nor claimed again is due from the end of its lease |
| DeliveryRuns.GrantedOnce | crates/pubsub-provider/src/delivery_transition.rs:13-30 | each generation of a delivery is granted to one claim |
| DeliveryRuns.SettledOnce | crates/pubsub-provider/src/delivery_transition.rs:33-51 | each generation of a delivery is settled at most once |
| DeliveryRuns.StaleOutcomeRefused | crates/pubsub-provider/src/delivery_transition.rs:33-51 | after a claim no outcome of an older generation ever changes anything |
| DeliveryRuns.SettledOutcomeRefused | crates/pubsub-provider/src/delivery_transition.rs:33-51 | after a settlement no further outcome up to its generation ever changes anything |
| DeliveryRuns.ClaimsFailOnlyByRequest | crates/pubsub-provider/src/delivery_operations.rs:103-125 | in every reachable state a candidate is refused only for an invalid lease or an exhausted generation |
| TableCatalog.KeysInjective | crates/kv-backend/src/catalog.rs:789-807 | each catalog row has its own key |
| TableCatalog.ReconcileUserIndexes | crates/kv-backend/src/catalog.rs:446-481 | the retain and push loops compute the reconciled identity |
| TableCatalog.ReconcileExact | crates/kv-backend/src/catalog.rs:446-481 | retained indexes keep their identifiers, exactly the unrequested go, requested ones are there, new identifiers are above the mark |
| TableCatalog.ReconcileSucceeds | crates/kv-backend/src/catalog.rs:446-481 | reconciling succeeds exactly for the live table of the name when identifiers are left for the requested indexes it does not have |
| TableCatalog.NewIdentity | crates/kv-backend/src/catalog.rs:415-443 | a new identity is live, named and has distinct index identifiers up to its mark |
| CatalogOperations.KvCatalogAttempt.ReadCatalogStamp | crates/kv-backend/src/catalog.rs:540-558 | returns the stamp of a valid lookup row and binds exactly that identity |
| CatalogOperations.KvCatalogAttempt.ReadTableAtStamp | crates/kv-backend/src/catalog.rs:590-618 | returns the description exactly for the stamp of the identity bound to the name, while that identity is the one in its live metadata row |
| CatalogOperations.KvCatalogAttempt.ObserveTable | crates/kv-backend/src/table_update.rs:23-44 | stamp and metadata together: absent exactly for unbound names, else the described table with its identity bound |
| CatalogOperations.KvCatalogAttempt.InsertTableLayout | crates/kv-backend/src/catalog.rs:200-289 | creates under the next identifier exactly when the name is free and identifiers are left, and changes nothing otherwise; what was written is what is read |
| CatalogOperations.KvCatalogAttempt.ReplaceTableLayout | crates/kv-backend/src/catalog.rs:347-411 | publishes the next revision and moves the stream entry, exactly for the bound incarnation; an unbound name is refused |
| CatalogOperations.KvCatalogAttempt.StoreExternalCleanupBarrier | crates/kv-backend/src/catalog.rs:485-538 | publishes the next revision with the cleanup mark, exactly for the expected stamp |
| CatalogOperations.KvCatalogAttempt.TombstoneTable | crates/kv-backend/src/catalog.rs:293-345 | deletes exactly the incarnation the attempt has bound: unbinds the name, keeps deleted metadata and leaves a reclaim marker |
| CatalogOperations.KvCatalogAttempt.UpdateInAttempt | crates/kv-backend/src/table_update.rs:23-156 | observing, reconciling and replacing is one update of the catalog, after which the new description is read, and a failure leaves the rows alone |
| CatalogOperations.KvCatalogAttempt.TouchInAttempt | crates/kv-backend/src/ttl_policy.rs:46-60 | observing and replacing under the same description is one new revision of the table |
| CatalogOperations.KvCatalogAttempt.DropInAttempt | crates/kv-backend/src/delete_table.rs:20-26 | observing and deleting is one drop; it fails only if the observation does or finds nothing, never for a changed identity |
| CatalogOperations.KvCatalogAttempt.LoadReclaimTarget | crates/kv-backend/src/table_reclaim.rs:99-127 | returns a reclaim marker exactly when it agrees with its key and with deleted metadata |
| CatalogOperations.KvCatalogAttempt.StoreReclaimPhase | crates/kv-backend/src/table_reclaim.rs:67-91 | moves the marker to its next phase or forgets the table |
| CatalogOperations.OneLiveTablePerName | crates/kv-backend/src/catalog.rs:235-289 | two live tables never share a name |
| CatalogOperations.BindSucceeds | crates/kv-backend/src/catalog.rs:165-197 | in a consistent catalog a bound name always reads its live metadata |
| CatalogOperations.PublishKeeps | crates/kv-backend/src/catalog.rs:347-411 | publishing a new or continued identity keeps names, metadata, streams and reclaim markers consistent |
| CatalogOperations.TombstoneKeeps | crates/kv-backend/src/catalog.rs:293-345 | deleting a table keeps the catalog consistent |
| CatalogOperations.CreateExact | crates/kv-backend/src/catalog.rs:200-289 | in a consistent catalog a creation succeeds exactly when the name is free and identifiers are left; the name then reads the description and a newly numbered identity, its stream entry is there exactly if its stream is on, and everything else reads as before |
| CatalogOperations.UpdateExact | crates/kv-backend/src/catalog.rs:347-411 | in a consistent catalog an update succeeds exactly for a bound name with revisions and index identifiers left; the name then reads the new description under the next revision, and everything else reads as before |
| CatalogOperations.TouchExact | crates/kv-backend/src/ttl_policy.rs:46-60 | in a consistent catalog a touch succeeds exactly for a bound name with a revision left; the name reads the old description under the next revision |
| CatalogOperations.BarrierExact | crates/kv-backend/src/catalog.rs:485-538 | in a consistent catalog a barrier succeeds exactly at the current stamp with a revision left, and afterwards the name reads its old description with the cleanup mark under the next revision |
| CatalogOperations.DropExact | crates/kv-backend/src/catalog.rs:293-345 | in a consistent catalog a drop succeeds exactly for bound names; afterwards the name is free, its stream gone, every other name reads as before, and the table waits to be reclaimed |
| CatalogOperations.DropKeepsRows | crates/kv-backend/src/catalog.rs:293-345 | deleting a table loses no description and leaves every other metadata row alone |
| CatalogOperations.PhaseExact | crates/kv-backend/src/table_reclaim.rs:67-91 | a reclaim step of a deleted table sets exactly the marker to the next phase, and only without a next phase forgets the marker and the table |
| CatalogOperations.FinishKeeps | crates/kv-backend/src/table_reclaim.rs:67-91 | moving or ending a reclaim keeps the catalog consistent |
| CatalogRuns.RunKeeps | crates/kv-backend/src/catalog.rs:235-538 | every reachable catalog is consistent and its logs fit |
| CatalogRuns.Perform | crates/kv-backend/src/catalog.rs:235-538 | on every reachable catalog the operations leave exactly the rows of the next state of the run, and refuse exactly when the step does |
| CatalogRuns.IdentifiersNeverReused | crates/kv-backend/src/catalog.rs:235-481 | over every run table and index identifiers are given out once, and those in use were given out |
| CatalogRuns.StampDeterminesTable | crates/kv-backend/src/catalog.rs:347-411 | what is live under one table identifier and revision is the same record at any two times |
| CatalogRuns.ReadsNeverStale | crates/kv-backend/src/catalog.rs:540-618 | in every reachable catalog stamp reads succeed, and the stream entry exists exactly while the live stream is on |
| Waves.TryNewLimits | crates/infrastructure-provider/src/limits.rs:19-47 | limits are accepted exactly when qualified |
| Waves.Validate | crates/infrastructure-provider/src/batch.rs:131-150 | a change is admitted exactly when its key, payload and revision are sound, at its size |
| Waves.TryNewBatch | crates/infrastructure-provider/src/batch.rs:17-41 | a batch is accepted exactly when within the limits, sound and without repeated keys |
| Waves.StaysAhead | crates/infrastructure-provider/src/batch.rs:63-108 | after as many batches the waves have covered at least as much as any division |
| Waves.WavesAreFewest | crates/infrastructure-provider/src/batch.rs:63-108 | no contiguous division within the limits uses fewer batches |
| Waves.PrepareGroupWaves | crates/infrastructure-provider/src/batch.rs:63-108 | succeeds exactly on countable sound changes with new keys; the waves are the group in order, none empty, each within the limits and as long as it can be |
| Waves.PlanWaves | crates/infrastructure-provider/src/batch.rs:45-61 | succeeds exactly on countable groups of sound changes with keys unique across phases, and every wave is an accepted batch |
| Waves.CountableGroups | crates/infrastructure-provider/src/batch.rs:79-83 | plannable groups are countable whenever their sizes add up to a machine word or the byte limit is at most half of one |
| Waves.UncountableExists | crates/infrastructure-provider/src/batch.rs:79-83 | under a byte limit of a whole word two sound changes of half a word each are not countable |

## Left out

- Native drivers, futures, retries, clocks and settlement wrappers: an ordered map, atomic commits
  and conflict-checked reads stand for them.
- Fallible allocation: it always succeeds.
- Serialisers of records, and the check that identifiers are well-formed text; the run of the first
  finding uses well-formed identifiers only.
- The FoundationDB mode of the system stream, in which commit versionstamps order the records; the
  numeric mode is modelled.
- Page reads, checkpoints, trimming and retention of the system stream.
- Scans.Scan: the byte budget of a native page is not modelled; a page may be shorter than asked
  for, which the theorems about pages allow.
- The scan and read-conflict terms of `record_footprint.rs` for ranges.
- Index builds, projections and retirement, and the order of reclaim phases: the catalog only
  stores the next phase.
- The table, trim and secondary-index checkers, report counters and error texts.
- Topics, subscriptions, cursors, publish intents and scheduled jobs.
- Configuration, command line, artifact writing and HTTP mapping.
- SystemStream.KvSystemWriteState.Reserve: the list of selected rows is a map by shard, so the
  order in which sequence rows are staged is not modelled.
- SystemStream.KvSystemWriteState.DrainMutations: gives the rows by shard, so the order in which they
  are staged is not stated.
- StreamCatalog.DecodeHistory: rows are visited in any order, not in key order.
- Deliveries.ReadDueDeliveries: identifiers are bytes; that they are UTF-8 is not modelled.
- CatalogOperations.KvCatalogAttempt.TombstoneTable: the index build rows removed with a table are
  not modelled.
- CatalogOperations.KvCatalogAttempt.InsertTableLayout: the first sequence row of the table's user
  stream is not modelled.
- CatalogOperations.KvCatalogAttempt.UpdateInAttempt: the index builds, retirements, name locks and
  retention rows staged with an update are not modelled.
- CatalogOperations.KvCatalogAttempt.TouchInAttempt: the expiry policy row is not modelled, and the
  table is read rather than taken from a cache under the same stamp
  (`CatalogRuns.StampDeterminesTable` says the two agree).
- CatalogOperations.KvCatalogAttempt.LoadReclaimTarget: the table whose marker the scan finds first
  is given.
