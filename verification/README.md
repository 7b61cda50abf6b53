# OnyxDB: one history, proved

OnyxDB turns every mutation into a *committed effect batch* with one sequence
number. Live state, the binlog, crash recovery and replicas all have to be the
same fold of that history of batches. This project models the code that makes
it so and proves the fold: for every run of commits, crashes, snapshots and
reconnections, and for every byte string that the parsers may meet.

Two states are compared through value and expiry of the entries that are live at
an instant (`Model.Alive`, `Model.Visible`): access times are bookkeeping and an
expired entry is absent whether or not it has been swept.

## How the modules build on each other

- **The fold and its inverse.** `Model`, `Effects`: batches, their application,
  what derivation must capture and what a rollback restores.
- **The engine.** `Shards`, `ShardObject`, `Merge`, `EngineObject`,
  `SnapshotEpoch`: copy-on-write shard data, counters, eviction, and snapshots
  that are read while commits go on.
- **Commits.** `Datasets`, `StoreObject`, `KeyLimit`, `Attempts`, `CommandRuns`,
  `Prepare`, `Transactions`, `Commit`: speculative execution, admission, the
  derived batch, reverse rollback, group commit and the worker loop.
  `CommandRuns.Ran` says what it means that a command ran, in terms of the engine's
  contents with their access times, the totals before the command and the limits
  of the store; every level above states it of each of its commands. `RunLaws` and
  `CommitLaws` say what that means for a client: what is left at each key, what is
  refused, what is evicted and what is put into the log.
- **Bytes.** `Wire`, `Codec`, `EntryCodec`, `BatchCodec`, `Framing`, `Scan`,
  `Logs`: the persistent formats and the binlog scanner.
- **Recovery.** `History`, `Recovery`, `Directories` follow the recovery code;
  `Ranges`, `CrashSafety`, `Compaction` and `DurabilityLimits` place it in a step
  system with crashes anywhere.
- **Replication.** `Backlog`, `Replication`, `ReplicationLaws`: master and replica
  as one step system. `ReplicaState`, `ReplicaLifecycle`: the durable state file and the life
  of a node across full synchronizations, compactions, promotion and crashes.
- **The seams.** `OneHistory`: the coordinator's log encodes to the history that
  the files hold, and startup, snapshots and synchronizations all yield its state.
- **RESP.** `Decimal`, `Resp`, `RespLaws`, `RespDecoder`, `RespStream`,
  `CommandLaws`, `Response`, `ResponseTokens`, `ResponseParser`, `ReplyLaws` (the
  Redis serialization protocol, sections "Simple strings", "Bulk strings", "Arrays"
  and "Inline commands"), and `Glob`.
- **Bytes, literally.** `Layouts`: where each part of a record stands and which
  bytes mark it.

Objects that the source updates in place are classes; loops are loops, proved
against functions on values. Protocols with interleavings are step systems: an
`Inv`, one lemma per kind of step, and a theorem over whole runs. Beside the
functions on values stand laws that say what they mean in plain terms: which key is
least recently used, which tail is torn, what a line decodes to. Beside the safety
theorems over runs stand theorems that there are such runs: a replica catches up, a
compaction completes, a full synchronization is installed.

## What turned out not to hold

Each of these has the failing case and the exact condition as lemmas.

- **A snapshot above the synced log.** Compaction with a full segment catalog does
  not seal, and so does not sync, before it installs the snapshot. A run from an
  empty directory reaches that installation; after a crash right behind it startup
  still succeeds, but the next append leaves a gap that every later startup
  refuses (`FullCatalogLosesDirectory`). An installation is safe exactly when the
  log up to the watermark is synced, or the watermark is the first record of a log
  without segments (`InstallIsSafeIff`); `CrashSafety` makes the former a guard.
  After a recovery the next append is safe exactly when the log reaches the
  watermark or is empty (`AppendAfterRecoveryIff`).
- **A covered segment that cannot be removed.** Cleanup goes on with the next
  segment. A run from an empty directory reaches a startup whose cleanup keeps the
  first of three segments and removes the others; no later startup succeeds
  (`FailedRemovalLosesDirectory`). With later records in place, the remaining
  history is gap-free exactly when only the oldest segments are gone
  (`RemovalLeavesHistoryIff`).
- **A crash while a full synchronization removes the old segments.** Startup can be
  refused in both roles (`InterruptedRemovalCanRefuse`). After k removals a
  replica starts exactly when all files are gone or every removed one was covered
  by the old snapshot (`InterruptedRemovalStartsIff`). It fails closed: no
  half-installed baseline is ever used.
- **A batch that becomes empty after admission.** With a clock that moves between
  the two derivations this can happen (`DerivationCanBecomeEmpty`). It happens
  exactly when nothing was evicted and the change has vanished meanwhile: every
  key that the command left as it was is still absent or live, and every other one
  was absent before and has expired since (`SecondDerivationEmptyIff`). Then, and only
  then, preparation fails (`PrepareCommandOperation`).
- **Expiry zero.** A put with `expires_at == Some(0)` does not survive encoding;
  a batch round-trips exactly when it has none (`BatchRoundTripIff`). Derivation
  never produces one (`DerivedExpiryIsNeverZero`), which every recorded step carries
  to the log (`AllBatchesCommittable`) and from there to the bytes (`EncodeLog`).
- **Patterns and stars in keys.** `glob_match` treats a star in the text as an
  ordinary character first. It agrees with the meaning of patterns on a text
  exactly when no star stands before its last character (`GlobIsExactIff`).

## What could be feared and does not happen

- **A full synchronization that is too large.** A replica refuses more than
  1,000,000 entries (`DeliveryAccepted`), and the master sends what it has without
  a check. Yet every state between two batches of a coordinator that began within
  the limit is within it (`RunCoordinator`, `GroupWithin`), so is what is recovered
  from any prefix of its log (`HistoryStaysWithin`, `RecoveredWithinLimit`), and so
  no message of such a master is ever refused (`CaptureForReplica`,
  `NothingIsRefused`).

## Model

| member | source | states |
|---|---|---|
| `Model.ApplyAllAlive` | src/persistence/model.rs:97-108 | states that agree on live entries still agree after any history of batches: expired entries never influence the fold |
| `Model.ApplyAllConcat` | src/persistence/model.rs:97-108 | folding two histories in a row is folding their concatenation |
| `Model.VisibleIff` | src/engine.rs:301-320 | an entry is visible exactly while it has no expiry or the clock is below it, with its value and expiry |
| `Model.LastEffectWins` | src/persistence/model.rs:97-108 | after a batch a key holds what the last effect on it says, and without one what it held |
| `Effects.DeriveReplaysMutation` | src/persistence/model.rs:57-95 | applying the derived batch to the before-state gives the after-state whenever every changed key is a captured key or a victim and uncaptured victims stay absent |
| `Effects.DeriveEmptyIffUnchanged` | src/persistence/model.rs:57-95 | no batch exactly when there is no victim and no captured key changed |
| `Effects.DeriveIff` | src/persistence/model.rs:57-95 | exactly which puts and deletions a derived batch holds, key by key |
| `Effects.DeriveInOrder` | src/persistence/model.rs:57-95 | victims first, each once and in eviction order; then the keys in the given order |
| `Effects.DerivedExpiryIsNeverZero` | src/persistence/model.rs:74-91 | every batch derived from a live state is free of the expiry that the codec reserves for "none" |
| `Effects.DerivationCanBecomeEmpty` | src/commit_coordinator.rs:609-640 | a concrete entry whose batch vanishes when the clock moves between two derivations |
| `Effects.DeriveLaterEmptyIff` | src/persistence/model.rs:57-95 | without victims, a derivation at a later time is empty exactly when each key was unchanged and is still live, or was absent before and has expired |
| `Effects.RestoreReverts` | src/store.rs:285-305 | restoring captured entries and then uncaptured victims brings back the start state, for every rollback that remembers it where the states differ |
| `Effects.JournalReplays` | src/commit_coordinator.rs:673-709 | the batches of a chain of dependent mutations fold its first state to its last |
| `Shards.ShardData.Get` | src/engine.rs:162-171 | lookup in flat or overlay mode is lookup in the plain map |
| `Shards.ShardData.Insert` | src/engine.rs:185-197 | insertion refines a map update, returns the previous entry and leaves the frozen map alone |
| `Shards.ShardData.Remove` | src/engine.rs:199-213 | removal refines map removal, also with a tombstone, and leaves the frozen map alone |
| `Shards.Visit` | src/engine.rs:215-235 | visits every visible entry exactly once, in either mode |
| `Shards.FoldDelta` | src/engine.rs:255-278 | folding the changes back yields exactly the visible map |
| `ShardObject.Shard.PurgeIfExpired` | src/engine.rs:301-320 | an expired entry is dropped, counters stay exact, everything else is unchanged |
| `ShardObject.Shard.Insert` | src/engine.rs:331-347 | the shard's map changes at the key only; size and key counters stay exact |
| `ShardObject.Shard.Remove` | src/engine.rs:349-364 | returns the live entry, removes the key, counters stay exact and never underflow |
| `ShardObject.Shard.ExpireKeys` | src/engine.rs:366-385 | exactly the expired entries go, and their number is returned |
| `ShardObject.Shard.UpdateIfExists` | src/engine.rs:407-444 | a live entry is updated or dropped, accounting follows the size change |
| `ShardObject.Shard.UpdateOrInsert` | src/engine.rs:467-512 | update of the live entry or of the default, accounting exact |
| `ShardObject.Shard.SetExpiry` | src/engine.rs:518-547 | the expiry changes exactly when the condition allows it |
| `ShardObject.ReexpiredIs` | src/engine.rs:518-547 | which live entries may get a new expiry under each demand, that a past deadline deletes, and that nothing else changes |
| `ShardObject.UpdatedIs` | src/engine.rs:407-444 | an update sees the value, keeps expiry and creation, refreshes the access time, or drops the key |
| `ShardObject.LiveIff` | src/engine.rs:301-320 | a slot counts exactly while it has no expiry or the clock is below it |
| `ShardObject.Shard.EvictionCandidate` | src/engine.rs:568-619 | none exactly when no key is eligible; otherwise an unprotected key, with an expiry under a volatile policy, and under a policy by last access one that no such key of the shard was accessed before |
| `Merge.MergedTotals` | src/engine.rs:715-719 | sizes and cardinalities of the shards add up to those of the whole dataset |
| `EngineObject.Engine.CountersExact` | src/engine.rs:292-299 | the shared key counter and the size counters are exact in every valid engine |
| `EngineObject.Engine.ApplyEntry` | src/engine.rs:784-799 | one key of the merged map changes, an expired entry removing it, and the previous live entry is returned |
| `EngineObject.Engine.Set` | src/engine.rs:827-843 | one key of the merged map gets the new value with fresh times, and the previous live entry is returned |
| `EngineObject.Engine.SetConditional` | src/engine.rs:938-968 | the write happens exactly under its condition |
| `EngineObject.Engine.Rename` | src/engine.rs:986-1024 | moves a live entry, also within and across shards and onto itself; otherwise only clears the expired source |
| `EngineObject.Engine.Copy` | src/engine.rs:1026-1083 | duplicates a live entry; copying onto itself changes nothing |
| `EngineObject.Engine.SnapshotAll` | src/engine.rs:1120-1130 | lists each live entry exactly once and sweeps the rest |
| `EngineObject.Engine.GcExpired` | src/engine.rs:1203-1211 | sweeps exactly the expired entries of all shards |
| `EngineObject.Engine.GlobalCandidate` | src/engine.rs:1174-1190 | none exactly when no key is eligible; otherwise an unprotected key, with an expiry under a volatile policy, and under a policy by last access one that no such key of the whole dataset was accessed before |
| `EngineObject.Engine.EvictToFit` | src/engine.rs:1162-1200 | terminates; every victim was taken while the rest was above the limit, was unprotected, had an expiry under a volatile policy, and under a policy by last access no such key that was left had been accessed less recently; ends within the limit or with nothing eligible |
| `EngineObject.RunVictims` | src/engine.rs:1162-1200 | victims are distinct, unprotected, and returned as they were in the dataset |
| `EngineObject.VictimIff` | src/engine.rs:568-619 | the best victim of a dataset, in terms of protection, expiry and last access only |
| `EngineObject.NoneEligibleIff` | src/engine.rs:568-619 | eviction has run out exactly when every key is protected or, under a volatile policy, never expires |
| `EngineObject.RunTakesInOrder` | src/engine.rs:1162-1200 | in terms of the dataset at the start: no victim of a policy by last access goes before a key that was accessed less recently |
| `EngineObject.Engine.BeginSnapshot` | src/engine.rs:739-757 | freezes every shard as it is and changes no visible entry |
| `EngineObject.Engine.FinishSnapshotShard` | src/engine.rs:759-770 | releases one shard without a visible change |
| `EngineObject.Engine.FinishSnapshot` | src/engine.rs:772-781 | releases the rest without a visible change |
| `EngineObject.Engine.ReplaceAll` | src/engine.rs:801-823 | the dataset becomes exactly the given entries, later ones winning |
| `SnapshotEpoch.Perform` | src/engine.rs:784-799 | stores, conditional stores, updates, expiry changes, renames, copies, evictions and sweeps during an epoch act on the plain map and leave the frozen maps alone |
| `SnapshotEpoch.OperationLeaves` | src/engine.rs:938-1083 | what stores, conditional stores, deletions, renames and copies leave at each key |
| `SnapshotEpoch.MaterializeShard` | src/engine.rs:667-690 | reads one frozen shard, with live operations before, between and after |
| `SnapshotEpoch.IntoEntries` | src/store.rs:55-76 | for every interleaving the result lists exactly the captured entries that are live at capture, each once, while the live operations act on the plain map |
| `SnapshotEpoch.TakeSnapshot` | src/store.rs:55-86 | capture and materialization together give the captured live entries; the live state meanwhile is a plain map given the same operations, where each eviction took the best keys one by one and stopped as soon as the dataset fitted or nothing was eligible |
| `StoreObject.Store.CaptureEntries` | src/store.rs:262-270 | the captured map holds exactly the live entries of the keys |
| `StoreObject.Store.RestoreEntries` | src/store.rs:285-305 | installs captured entries in any order, then victims that were not captured |
| `StoreObject.Store.DeriveCommittedBatch` | src/persistence/model.rs:57-95 | the loop computes the canonical batch of the difference |
| `StoreObject.Store.ApplyCommittedBatch` | src/persistence/model.rs:97-108 | the store's live state becomes the fold of the batch |
| `Attempts.ShortcutKeepsKeyLimit` | src/store.rs:110-112 | the shortcut around exact counting never lets a store within the key limit pass it |
| `Attempts.MutationAttempt.constructor` | src/store.rs:262-283 | captures the live entries of the keys as they are, and the count and size of the live dataset where the limits need them |
| `Attempts.MutationAttempt.Admit` | src/store.rs:159-196 | granted only within the key and memory limits or without growth since the capture, each victim a best one in the sense of `VictimIff`, taken while the rest was over the limit, and only when the dataset had grown over it; refused only when the live keys had grown over the limit, or when even what eviction cannot remove was over the memory limit, and then every victim is back |
| `Attempts.ExhaustedIsLasting` | src/engine.rs:1162-1200 | an eviction that runs out of candidates leaves exactly the protected and ineligible entries, whatever it removed and in which order |
| `Prepare.SecondDerivationEmptyIff` | src/commit_coordinator.rs:609-640 | the batch derived after admission is empty exactly when there were no victims and the change has vanished since |
| `Prepare.PrepareCommandOperation` | src/commit_coordinator.rs:602-647 | the command's own update on the live entries of its keys is what was executed; it was then kept with victims, refused, found unchanged, or failed, each exactly when the two derivations say so and justified by the store's own limits, its contents after execution and its totals at capture; the batch is exactly the canonical one, batch and rollback map the state forth and back, and the key limit is kept |
| `RunLaws.ExecutionIs` | src/commit_coordinator.rs:602-647 | execution leaves at each key of a write what its update makes of the live entries it is shown, and every other key as it was |
| `RunLaws.RunLeaves` | src/commit_coordinator.rs:602-647 | key by key what a command leaves: its update if it was admitted, nothing at its victims, and everything else as before; everything as before if it was refused |
| `RunLaws.RefusalIs` | src/store.rs:159-196 | a refusal means that the live keys grew over 1,000,000, or that the dataset grew over its limit and even what may not be evicted is over it |
| `RunLaws.AdmissionIs` | src/store.rs:159-196 | what was admitted is within the memory limit or has not grown; victims fell only over the limit, none of them a key of the command, in the order of the policy |
| `RunLaws.RunKeepsKeyLimit` | src/store.rs:159-196 | within 1,000,000 live keys a command stays within them |
| `RunLaws.ShrinkingIsFree` | src/store.rs:159-196 | what only takes away is never refused and costs no victim |
| `Transactions.TransactionStepHolds` | src/commit_coordinator.rs:758-775 | one batch from the baseline maps start to end, and the baseline maps end back to start |
| `Transactions.SortKeys` | src/commit_coordinator.rs:758-775 | the changed keys of the transaction in byte order, each as often as given |
| `Transactions.PrecedesIff` | src/commit_coordinator.rs:765 | the order is that of bytes: a prefix first, otherwise the smaller byte where two keys first differ |
| `Transactions.PrepareTransaction` | src/commit_coordinator.rs:711-776 | every command of the transaction runs once, in order, each on the contents the previous one left, with victims and refusals justified by the store's own limits; the single batch is the canonical one of all recorded keys, each once and in byte order; batch and rollback connect start and end, also for reads, no-ops, refusals, repeated keys and victims changed earlier; the key limit is kept |
| `Commit.PrepareGroup` | src/commit_coordinator.rs:673-709 | every command of the group runs once, in order, with victims and refusals justified by the store's own limits, and the request's batches are exactly those of its admitted commands, each a recorded step within the key limit; otherwise one of them failed because its change vanished between the two derivations, and everything is undone |
| `Commit.PrepareDelete` | src/commit_coordinator.rs:825-847 | a binary-protocol deletion runs as the command that leaves nothing, with the batch that deletes the key exactly when it was live, and its rollback; it only shrinks the live keys |
| `Commit.UndoRequest` | src/commit_coordinator.rs:883-886 | the rollbacks of one request in reverse order restore its start |
| `Commit.RollbackPrepared` | src/commit_coordinator.rs:881-887 | reverse rollback over dependent requests and evictions restores the state before the group |
| `Commit.GroupReplays` | src/commit_coordinator.rs:930-966 | all batches of a group fold its start state to its end state |
| `Commit.GroupWithin` | src/commit_coordinator.rs:930-966 | when every recorded state of a group is within the key limit, so is the fold of every prefix of all its batches |
| `Commit.AllBatchesCommittable` | src/commit_coordinator.rs:952-968 | every batch of a prepared group is nonempty and free of expiry zero |
| `Commit.AssignSequences` | src/commit_coordinator.rs:952-968 | contiguous sequences, or exhaustion |
| `Commit.AppendRecords` | src/commit_coordinator.rs:952-1014 | the storage outcome decides: completed exactly when accepted or without batches, reverted when rejected or out of sequences, fenced when unknown |
| `Commit.Coordinator.ProcessCommitGroup` | src/commit_coordinator.rs:898-1014 | all commands of all requests run, and result, log and state follow from the outcome: a completed group appends exactly its batches at contiguous sequences and their fold is the new state; a failed preparation, exhausted sequences or a rejection restore the state and stop writes; an unknown outcome stops for good; afterwards groups are declined |
| `Commit.FormGroup` | src/commit_coordinator.rs:1024-1055 | the group is the longest prefix of what has arrived within the request, mutation and byte limits: a request is deferred exactly because it does not fit, and nothing is lost or reordered |
| `Commit.RunCoordinator` | src/commit_coordinator.rs:1016-1070 | every request is taken once, in order; each round runs its group as stated under the limits of the store; the log grows by exactly the batches of the completed rounds, live state is the fold of the log unless fail-stopped, and every prefix of the log folds to a state within the key limit when the start was |
| `Commit.FailureIsFinal` | src/commit_coordinator.rs:898-925 | from the first round that does not complete, every later round of a run is declined |
| `CommitLaws.ObpSetIs` | src/commit_coordinator.rs:778-823 | storing over the binary protocol leaves exactly that value without an expiry at the key, and every other entry as it was unless evicted; a refusal changes nothing |
| `CommitLaws.ObpSetRecords` | src/commit_coordinator.rs:778-823 | its batch is exactly the deletions of the victims and the put of the new entry, unless the key held it already; without admission there is none |
| `CommitLaws.ObpDeleteIs` | src/commit_coordinator.rs:825-847 | deleting takes away the key and nothing else, is never refused and evicts nothing; its only batch is that deletion, and there is one when the key was live |
| `CommitLaws.CommandsRun` | src/commit_coordinator.rs:673-776 | a command, a pipeline and a transaction run all their commands, in order and once; a transaction commits as one batch at most, the others as exactly the batches of their admitted commands |
| `CommitLaws.GroupIsBounded` | src/commit_coordinator.rs:1024-1055 | a group of several requests commits at most 256 batches |
| `CommitLaws.WithinLimitsIff` | src/commit_coordinator.rs:1024-1055 | what fits into one group: one request, or up to 64 with at most 256 mutations, a pipeline counting as its commands, and 8 MiB |
| `CommitLaws.RoundIs` | src/commit_coordinator.rs:898-1014 | what becomes of a round: completed exactly when acknowledged or without batches, undone when rejected, failed or out of sequences, fenced when unknown, declined once writes have stopped |
| `Wire.BigEndianRoundTrip` | src/persistence/codec.rs:65-81 | a written integer reads back |
| `Wire.TakeUnsignedIff` | src/persistence/codec.rs:96-122 | reading succeeds with a value exactly on its writing |
| `Wire.TakeChunkIff` | src/persistence/codec.rs:1000-1005 | a length-prefixed chunk is read exactly where it was written |
| `Codec.TakeEntryIff` | src/persistence/codec.rs:920-1120 | the entry reader accepts exactly what the entry writer produces, at any position |
| `EntryCodec.EntryReadsBackIff` | src/persistence/codec.rs:920-1120 | an entry reads back exactly when its expiry is not zero |
| `EntryCodec.AcceptedIsWritten` | src/persistence/codec.rs:1007-1120 | every accepted record is the writing of some wire entry |
| `EntryCodec.EncodeSnapshotEntry` | src/persistence/codec.rs:920-998 | writes a form of the entry, in any hash or set order; refuses exactly on an oversized length or record |
| `EntryCodec.DecodeSnapshotEntry` | src/persistence/codec.rs:1007-1120 | the offset-driven loops decode as specified on unread bytes |
| `BatchCodec.TakeBatchIff` | src/persistence/codec.rs:1162-1210 | the count guards never refuse encoder output and nothing else is accepted |
| `BatchCodec.BatchRoundTripIff` | src/persistence/codec.rs:1125-1210 | a written batch decodes to itself exactly when no put has expiry zero |
| `BatchCodec.OnlyWholeBatches` | src/persistence/codec.rs:1162-1210 | every proper prefix and every extension of an encoding is refused |
| `BatchCodec.AcceptedBatchIsWritten` | src/persistence/codec.rs:1162-1210 | what decodes is the writing of a wire batch |
| `BatchCodec.EncodeCommittedBatch` | src/persistence/codec.rs:1125-1161 | output within the record limit that decodes to the batch exactly when no put has expiry zero; refusal has one of the stated causes |
| `BatchCodec.DecodeCommittedBatch` | src/persistence/codec.rs:1162-1210 | the loop decodes as specified; a failure inside is a failure of the whole |
| `Framing.EncodeFramedRecord` | src/persistence/codec.rs:141-207 | appends exactly one framed record, or refuses sequence zero and oversized records |
| `Framing.DecodeRecordIff` | src/persistence/codec.rs:224-297 | a checksummed record decodes exactly when the encoder wrote it |
| `Framing.LegacyRecordIs` | src/persistence/codec.rs:224-297 | what a record of the previous format decodes to, and that any other format is refused |
| `Scan.ReadRecord` | src/persistence/recovery.rs:124-205 | the header probe classifies what follows: a record, the clean end, a tail that may be cut, or corruption, in the sense of `TailIff` |
| `Scan.ForEachBinlogRecord` | src/persistence/recovery.rs:112-211 | visited records, valid length and ending of an arbitrary file |
| `Scan.ScanIsPrefix` | src/persistence/recovery.rs:112-211 | the visited records are exactly the valid part, and the end is clean exactly when nothing follows |
| `Scan.CutIsTorn` | src/persistence/recovery.rs:112-211 | for any records and any byte cut: exactly the complete records, their length, torn exactly off a boundary, never an error |
| `Scan.TailIff` | src/persistence/recovery.rs:112-211 | behind any encoded records, exactly which bytes are the tail of an interrupted append and which are corruption, in terms of length, limit, magic and embedded length |
| `Logs.InspectBinlog` | src/persistence/recovery.rs:213-246 | succeeds exactly on a decodable, gap-free file and reports first and last sequence, length and tail |
| `Logs.TruncationKeepsLog` | src/persistence/recovery.rs:534-537 | cutting off a torn tail keeps every record and leaves a clean file |
| `Logs.TailDecides` | src/persistence/recovery.rs:213-246 | a corrupt tail refuses the file; an interrupted one is left out of what is read |
| `History.CheckContiguous` | src/persistence/recovery.rs:504-521 | comparing file ends decides whether the whole history is gap-free |
| `History.RepairKeepsRecords` | src/persistence/recovery.rs:525-561 | repair drops bytes, never records |
| `History.SoundIsAccepted` | src/persistence/recovery.rs:432-523 | every sound history of up to 1024 segments is accepted |
| `History.SoundAscends` | src/persistence/recovery.rs:463-467 | in an admitted history the file order is the name order |
| `Directories.ListsUnique` | src/persistence/recovery.rs:440-467 | the sorted catalog does not depend on the order of the directory |
| `Directories.Directory.RepairLastIncompleteSegment` | src/persistence/recovery.rs:525-561 | leaves exactly the repaired catalog: the last segment truncated and named after its last record, or removed; refuses exactly when the name is taken |
| `Directories.Directory.InspectHistory` | src/persistence/recovery.rs:432-523 | succeeds exactly on an admissible catalog and leaves it repaired and sound |
| `Directories.LoadableIs` | src/persistence/recovery.rs:432-523 | what startup accepts: at most 1024 segments, every record decodes, only the last segment is torn and then nothing follows, every other one ends with the record it is named after, sequences rise by one, and the first is not above the one after the watermark |
| `Directories.ContradictionIsRefused` | src/persistence/recovery.rs:136-205 | records followed by bytes that no append can have left refuse startup, in a segment and in the active file |
| `Recovery.AfterIsSuffix` | src/persistence/recovery.rs:345-383 | exactly the sequences watermark + 1 and on are replayed, each once, in order |
| `Recovery.ReplayFiles` | src/persistence/recovery.rs:354-383 | replay of an admitted history that reaches the watermark never meets the contiguity error |
| `Directories.Directory.LoadData` | src/persistence/recovery.rs:309-430 | success exactly on a readable snapshot and an admissible history reaching the watermark; the result is the snapshot, the primary one if it is there, with the later records applied; a refusal leaves the active file as it was |
| `Directories.Directory.InstallSnapshot` | src/persistence/recovery.rs:758-772 | with either rename failing, recovery still finds the old or the new snapshot |
| `CrashSafety.CrashRecovers` | src/persistence/recovery.rs:309-430 | after any crash startup succeeds, keeps everything synced and yields the state of the surviving prefix |
| `CrashSafety.EveryRunRecovers` | src/persistence/recovery.rs:309-430 | the same after every run of appends, syncs, seals, installs, cleanups, crashes and recoveries |
| `CrashSafety.SyncedSurvives` | src/persistence/runtime.rs:884-966 | what was synced once stays in the history across any number of crashes |
| `CrashSafety.RestartAfterCrash` | src/persistence/recovery.rs:309-430 | the recovery code on the files of any crash, where the file system lets any number of the oldest segments be removed: it ends with the files of the model's recovery followed by those removals, and so within the invariant |
| `Compaction.CompactionCompletes` | src/persistence/runtime.rs:1769-1893 | from any running directory with room for one more segment there is a run to the snapshot of the whole history and no binlog file |
| `Compaction.MovedBack` | src/persistence/recovery.rs:758-772 | a snapshot that was moved aside is the one startup finds, and moving it back restores it |
| `DurabilityLimits.AppendAfterRecoveryIff` | src/persistence/recovery.rs:422-423 | the append after a recovery is gap-free exactly when the log reaches the watermark or is empty |
| `DurabilityLimits.InstallIsSafeIff` | src/persistence/runtime.rs:1769-1893 | installing a snapshot leaves every crash recoverable and the next append readable exactly when the log up to its watermark is synced, or the watermark is the first record of a log without segments |
| `DurabilityLimits.FullCatalogLosesDirectory` | src/persistence/runtime.rs:1769-1893 | the run from an empty directory over 1024 segments to an unsynced installation, and the crash after which no startup succeeds once a record is appended |
| `DurabilityLimits.RemovalLeavesHistoryIff` | src/persistence/runtime.rs:744-804 | with later records in place, removal leaves a gap-free history exactly when only the oldest segments are gone |
| `DurabilityLimits.FailedRemovalLosesDirectory` | src/persistence/runtime.rs:744-804 | a run from an empty directory to a startup that succeeds, and the files left when its cleanup removes the second and third segment but not the first: every later startup refuses them |
| `Backlog.PublishToBacklog` | src/main.rs:2724-2747 | the backlog holds exactly the newest batches, up to 10,000 |
| `Backlog.PartialResyncIff` | src/main.rs:437-454 | partial resynchronization is offered exactly when every missing batch is retained |
| `Backlog.NewerIsMissing` | src/main.rs:1252-1258 | what is sent is exactly the missing batches in order |
| `Replication.DeliveryAccepted` | src/main.rs:2897-2925 | in every reachable state the next message is accepted, with no sequence, boundary or duplicate-key error, exactly unless it announces more than 1,000,000 entries |
| `Replication.DeliveryIsGapFree` | src/main.rs:2897-2963 | a ready replica's sequence rises by one with the master's own batch |
| `Replication.StepKeeps` | src/main.rs:1236-1261 | every step of commit, subscription, capture, sending, streaming, loss and restart keeps the invariant; what the steps decide is stated by `DecideIff` and the laws next to it |
| `Replication.ReplicaFollowsMaster` | src/main.rs:1475-1512 | for every interleaving, a ready replica at offset n holds the state of the first n batches of the history it names, and its next message is accepted unless it announces too many entries |
| `Replication.NothingIsRefused` | src/main.rs:4009-4016 | in every run in which the master accepts only what keeps its history within the key limit, the next message is always accepted |
| `ReplicationLaws.DecideIff` | src/main.rs:1240-1262 | a request is continued exactly when it names the master's own history and a positive offset in it from which on the backlog holds every batch, and then with exactly those; everything else takes a full synchronization |
| `ReplicationLaws.EffectsIff` | src/main.rs:2897-2963 | an effect is taken exactly on a ready baseline and at the next sequence, and applied to it |
| `ReplicationLaws.ContinueIff` | src/main.rs:4432-4437 | a continuation is taken exactly when it repeats the request |
| `ReplicationLaws.FullResyncIff` | src/main.rs:4002-4022 | a full synchronization is begun exactly for a named history and at most 1,000,000 entries, and makes the replica forget its identity |
| `ReplicationLaws.ItemIff` | src/main.rs:4530-4562 | an entry is taken exactly when one is due and its key is new |
| `ReplicationLaws.SyncDoneIff` | src/main.rs:4567-4660 | a synchronization ends exactly with its own history and sequence, and only then is the new baseline ready |
| `ReplicationLaws.CatchesUp` | src/main.rs:1236-1261 | from every state of a master within the key limit there is a run, without a new commit, after which the replica is ready at the whole history |
| `ReplicationLaws.Follows` | src/main.rs:1475-1512 | a connected replica that lags by at most 4,096 batches can take everything that has been published |
| `ReplicationLaws.LagStops` | src/main.rs:1475-1512 | one that lags by more is not served any further |
| `ReplicaState.LoadWritten` | src/persistence/replica_state.rs:84-114 | a written state loads back, a mismatched identity as an unfinished installation |
| `ReplicaState.ReplicaStateFile.PrepareReplicationStartup` | src/persistence/replica_state.rs:137-159 | a replica is given an identity exactly by a READY file whose baseline is the installed snapshot, and is refused exactly by a damaged file; a master is refused exactly by a damaged file, an unfinished installation or an identity without its snapshot, and otherwise leaves no file or a detached one |
| `ReplicaLifecycle.StepKeeps` | src/main.rs:2965-3125 | every step of reception, installation, compaction with and without a full catalog, promotion and crash keeps the invariant |
| `ReplicaLifecycle.RestartIsSafe` | src/main.rs:2965-3086 | after any run, a resumed identity has exactly that master's files, a master has one consistent history, an unfinished installation gives neither; a compaction over a full catalog, which does not seal, is a step after which a crash keeps the log up to the watermark |
| `ReplicaLifecycle.PromotionIsFinal` | src/main.rs:3088-3125 | once promoted no step of any run installs an upstream effect or baseline |
| `ReplicaLifecycle.InterruptedRemovalStartsIff` | src/persistence/runtime.rs:721-735 | from any installation that is about to clear its files: after k removals and a crash, no master starts, and a replica starts exactly when all files are gone or every removed one ended at or below the old watermark |
| `ReplicaLifecycle.InterruptedRemovalCanRefuse` | src/persistence/runtime.rs:721-735 | a reachable state that starts in no role |
| `ReplicaLifecycle.FullSyncCompletes` | src/main.rs:2965-3086 | whatever the files of a replica hold, there is a run to exactly a new baseline with its identity |
| `ReplicaLifecycle.BaselineResumes` | src/main.rs:3784-3787 | after a crash right behind it the identity is resumed over the same files |
| `OneHistory.EncodeLog` | src/persistence/codec.rs:1125-1161 | every batch of the coordinator's log gives a record that decodes to exactly that batch, unless the format cannot hold it |
| `OneHistory.LiveStateIsFold` | src/commit_coordinator.rs:930-1014 | a coordinator started over the state of a history extends it: the live state is the fold of the old history and everything committed since |
| `OneHistory.RecoveredIsLive` | src/persistence/recovery.rs:309-430 | after a crash that finds everything synced, startup restores the live state and the sequence |
| `OneHistory.CommittedSurvives` | src/persistence/recovery.rs:309-430 | encoding, appending and syncing a coordinator's log, then crashing and waiting any time, startup restores its live state at its sequence |
| `OneHistory.CaptureForCompaction` | src/persistence/runtime.rs:1842-1893 | a snapshot of an engine that holds the fold of the history is a snapshot of the history at its sequence, whatever clients do meanwhile |
| `OneHistory.CaptureForReplica` | src/main.rs:1367-1377 | what the engine of a coordinator lists is the baseline at its sequence, with one entry per live key; the replica never finds it too large when the coordinator began within the key limit |
| `OneHistory.HistoryStaysWithin` | src/commit_coordinator.rs:930-1014 | a history within the key limit, extended by the log of a coordinator that began with its state, is within the limit at every sequence |
| `OneHistory.RecoveredWithinLimit` | src/persistence/recovery.rs:309-430 | whatever prefix of such a history a crash leaves, startup restores a dataset within the key limit |
| `OneHistory.BaselineHolds` | src/main.rs:2994-3086 | the files after a full synchronization are files of the master's history, so that crash safety goes on to hold of them |
| `OneHistory.ReplicaRestarts` | src/main.rs:3784-3787 | what startup makes of a crashed replica's files is one of its master's states, from which replication goes on |
| `Decimal.FoldIff` | src/resp.rs:76-86 | the checked fold fails exactly when the number does not fit a machine word |
| `RespDecoder.DecodeBufferedCommand` | src/resp.rs:92-205 | the cursor loop decodes as specified, error for error |
| `RespLaws.EncodeCommand` | src/resp.rs:208-256 | appends the encoding, or refuses exactly outside the limits with the buffer unchanged |
| `RespLaws.DecodeStable` | src/resp.rs:92-205 | success and error are unchanged by bytes that arrive later |
| `RespLaws.SplitWord` | src/resp.rs:116-131 | a word without white space is one inline argument |
| `RespLaws.SplitAtSpace` | src/resp.rs:116-131 | white space separates inline arguments, which determines the splitting |
| `RespLaws.DecodeRespects` | src/resp.rs:92-205 | an accepted command respects every limit, has valid arguments and leaves exactly what follows it |
| `RespLaws.DecodeEncoding` | src/resp.rs:92-256 | an encoded command decodes to its arguments and exact length, whatever follows |
| `RespLaws.PrefixIsPending` | src/resp.rs:92-256 | every proper prefix of an encoding is incomplete |
| `RespStream.Source.ReadBoundedLine` | src/resp.rs:35-69 | a line of the byte stream, whatever the chunks |
| `RespStream.Source.ReadCommand` | src/resp.rs:258-360 | for every chunking the outcome is that of the buffered decoder, with the same bytes consumed |
| `CommandLaws.LineIs` | src/resp.rs:35-69 | a line ends with CR LF within its limit; otherwise it is too long, badly ended or incomplete |
| `CommandLaws.InlineIs` | src/resp.rs:116-131 | a line of words, whatever white space stands around them, decodes to exactly those words, or to the first of the stated errors |
| `CommandLaws.DecodeInline` | src/resp.rs:92-131 | the buffered decoder returns the words of such a line and its length |
| `CommandLaws.ReadInline` | src/resp.rs:258-290 | the streaming reader returns them for every chunking and leaves what follows |
| `CommandLaws.ArrayHeaderIs` | src/resp.rs:133-145 | what the header of an array decides, error for error |
| `CommandLaws.BulkIs` | src/resp.rs:147-205 | what a bulk string decides, error for error |
| `Response.EncodeInto` | src/resp.rs:396-424 | the recursive printer appends the encoding of any nested value |
| `ResponseTokens.TakeWrittenToken` | src/client.rs:127-204 | a printed head is read back as its token, whatever follows |
| `ResponseTokens.ReadToken` | src/client.rs:127-204 | the token reader follows its specification on the stream |
| `ResponseParser.ReadResponse` | src/client.rs:206-261 | for every stream and every chunking the explicit-stack parser gives the answer of the recursive grammar, with the same one of fifteen errors, and leaves what follows the reply |
| `ResponseParser.ReplyRoundTrip` | src/client.rs:206-261 | the grammar rebuilds every printed value within the limits and takes exactly its bytes, whatever follows |
| `ResponseParser.AcceptedIsWithinLimits` | src/client.rs:206-261 | whatever the stream, an accepted reply is within the frame, element and nesting limits, and the counters are exact |
| `ReplyLaws.HeadIs` | src/client.rs:127-204 | the line of a reply by its first byte and its limits |
| `ReplyLaws.NoHeadIs` | src/client.rs:127-160 | the end of the stream, an empty line and one without CR LF |
| `ReplyLaws.BulkReplyIs` | src/client.rs:165-186 | a bulk reply by its length and what follows, error for error |
| `ReplyLaws.ArrayReplyIs` | src/client.rs:187-200 | an array header by its length |
| `ReplyLaws.SignedIs` | src/client.rs:86-99 | which texts are 64-bit integers, and which ones |
| `ReplyLaws.ArrayRefusedIff` | src/client.rs:226-244 | an array is refused for its depth or its elements exactly beyond the limits, and never when it is empty |
| `Layouts.FourOf` | src/persistence/codec.rs:65-70 | the four bytes of a number, the most significant one first |
| `Layouts.EightOf` | src/persistence/codec.rs:72-81 | the eight bytes of a long number |
| `Layouts.BitsAre` | src/persistence/codec.rs:932-935 | integers in two's complement |
| `Layouts.EntryLayout` | src/persistence/codec.rs:920-998 | key length, key, expiry or zero, the byte of the type and the value |
| `Layouts.ElementsLayout` | src/persistence/codec.rs:910-918 | elements one after the other, each behind its length |
| `Layouts.WordsLayout` | src/persistence/codec.rs:978-989 | the components of a vector one after the other |
| `Layouts.EffectsLayout` | src/persistence/codec.rs:1125-1161 | a count and the effects: 1 for a put, 2 for a deletion |
| `Layouts.RecordLayout` | src/persistence/codec.rs:141-207 | length, "ONX4", length, sequence, payload and checksum |
| `Layouts.DigitsAre` | src/resp.rs:208-256 | decimal digits, the most significant one first, without leading zeros |
| `Layouts.CommandLayout` | src/resp.rs:208-256 | the bytes of a command |
| `Layouts.ReplyLayout` | src/resp.rs:396-424 | the bytes of each kind of reply |
| `Glob.GlobMatch` | src/store.rs:1062-1094 | the loop computes the backtracking matcher, which terminates |
| `Glob.GlobIsExactIff` | src/store.rs:1062-1094 | the matcher agrees with the meaning on all patterns exactly when the text has no star before its last character |

## Left out

- Typed commands (strings, lists, hashes, sets, JSON paths): a command is any update of its affected keys, so their own results are not modelled.
- Entry sizes, the shard hash, CRC32, UTF-8 validity and JSON parsing: parameters of the model; nothing depends on which functions they are, except that JSON text written by the serializer is assumed to parse back to itself.
- Machine limits of counters: sizes and key counts are unbounded, so saturation of `usize` and unwinding closures do not occur; sequences do end at the 64-bit limit.
- The clock: it is monotone, and one stage of an operation reads it once where the source reads it per entry.
- Error texts: refusals are distinguished only where a property speaks of them; the RESP decoder and the reply parser keep every error apart, except that a frame length beyond the machine word counts as a frame that is too long.
- Log scanning with a visitor: the records of a file are collected first and visited then; a failure in the middle fails the whole in both forms.
- File system: renames, removals and synced writes are atomic durable steps with crash points between them; gzip, locking, directory sync and the text header of snapshot files are not part of the model, and a missing active binlog is an empty one.
- Rotation files of earlier versions, ONX2 records and text snapshots: only their refusal is modelled; the test-only command codec is not.
- `CrashSafety.EveryRunRecovers`: a snapshot is installed only when the log up to its watermark is synced; `DurabilityLimits` shows what happens otherwise. That appended batches decode to themselves is proved in `OneHistory`.
- Replication transport: messages are delivered in order or the connection is lost; chunked framing, heartbeats, acknowledgements, authentication and timeouts are not modelled, and one replica stands for each, since connections share only the master's history.
- Reception, installation, promotion and streaming code of the server (`src/main.rs`): modelled on values, as steps with a crash or an interleaving possible after each, so update in place within one function is not captured.
- `ReplicaLifecycle.RestartIsSafe`: files are described by lineage and sequence range; their bytes are the subject of `CrashSafety`.
- Equality of values: floats, vectors and JSON are compared by their bits or text, where the source's derived equality takes 0.0 and -0.0 for equal and NaN for different from itself; an update between two such values is a change in one reading and none in the other.
- Sockets, Pub/Sub, metrics, configuration, the binary protocol's framing, backpressure and rollover scheduling.
- The commit paths outside the coordinator (`src/main.rs:3181-3371`), which repeat its logic.
