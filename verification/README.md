# Hadar: a verified model of the log and the revision-indexed store

Hadar is a key-value store that numbers every write with a revision, keeps the history of
each key in an in-memory index over an ordered transactional backend, and makes writes
durable with a segmented write-ahead log. This project models those layers and proves that
they compose: what a client was told is what it reads, at any later point, whatever failed
in between (`WriterLog.AnsweredIsRead`, `LogGuarantees.ReadsSeeTheLog`), and, where the
code does not keep that, exactly when.

Check everything with `dafny verify dfyconfig.toml`.

## How it is laid out

Each operation exists twice: as a function on values, which the theorems are about, and,
where the program works by updating state, as a method on objects or a loop whose contract
equates it with that function.

- **Bytes.** `ByteStrings`, `OrderedScan`, `KeyBounds`, `Revisions`, `StoredRecord`:
  unsigned byte order, prefix ranges, order-preserving revision keys, paging.
  `Frames`, `LogRecords`, `Joined`: framed records, and what any byte cut of a log reads
  back as. The checksum is an arbitrary function from bytes to 32-bit words.
- **Index and store.** `Mutations` holds the reference meaning, a fold of the event log.
  `Histories` and `Indexes` relate generations to it; `Stores`, `StoreInvariant`,
  `StoreReads`, `StoreCompaction` and `StoreReopen` do so for the backend records, the
  counters and reopening. `StoreLeftovers` and `StoreRestarts` are about records a failed
  compaction left behind, `StoreRuns` about whole runs; `StoreWitnesses` shows those that
  go wrong. `KvStores` is the object.
- **Log.** `Segments` is one segment under faults. `Recovery` replays segments.
  `LogDamage` says which bytes are damaged and that recovery refuses them. `LogStores` says
  which store a log makes. `LogMachine` is the whole protocol as a state machine: retire,
  checkpoint, remove, process death, power loss, recover, reopen, each with its failures.
  `LogShapes` and `LogRuns` carry its invariant; `LogGuarantees` draws the consequences.
  `LogDrift`, `LogAftermath`, `LogLedger` and `LogOutcomes` are what happens outside its
  hypothesis, `LogWitnesses` the runs that show it.
- **Writer.** `WriterRounds` describes the queue's rounds and replies, `WriterGuarantees`
  proves what callers can rely on and that serving a queue is a run of the machine,
  `WriterLog` joins the replies to the log, `WriterCheckpoints` follows checkpoint
  requests, `WriterSpace` bounds the log; `Writers` and `Opening` are the objects and loops.
- **Engine.** `MemEngines` is the in-memory engine as interleaved atomic actions of any
  number of threads, and as objects coupled to them.

## What crash safety says

A run is any sequence of the machine's steps. `Flatten(trace)` is what the submitted
batches left in the log: all of an acknowledged one, nothing of a refused or rewound one,
and a prefix of one whose bytes a failure exposed and a crash then kept. After any prudent
run the store holds exactly that log or can be recovered to hold it, and that log only
ever grows. A process death keeps every byte written and the backend commits up to any
one. A power loss keeps every flushed byte and any prefix of the others of each segment,
and restores the last durable backend commit or any later one. Dying in the middle of an
append is a short write whose rewind fails, then a death or a power loss.

The hypotheses are:

- **Prudence.** First, no batch is retired between a failed flush or a failed apply and
  the restart after it. The program does not enforce this: such a failure leaves the bytes
  in the file and counted (`crates/wal/src/segment.rs:123-126`) while positions are
  computed from what the store applied (`crates/wal/src/writer.rs:194`, `:203`).
  While the process lives its store and its reads are still right (`StaysRight`,
  `ReadsStayRight`). `OutcomeIsExact` and, for a process death, `DeathIsExact` say exactly
  when everything acknowledged survives a crash, however many batches were lost and
  acknowledged in however many segments; `ImprudenceRenumbers` and `ImprudenceDisplaces`
  are runs that lose or move some.
  Second, no power loss takes records that the backend state it restores has replayed.
  That can only strike between a recovery after a process death and the flush in
  `Segment::reopen` (`crates/wal/src/wal.rs:116-128`, `OnlyUnsettledIsAtRisk`);
  `PowerLossIsExact` says what happens in either case, and `ReplayedCanBeLost` is a run.
- No more mutations than revisions: the volume of a run is at most 2^63 - 1, past which
  `Revision::next_main` panics.

## Where the documentation promises more than the code keeps

- An unacknowledged write may become visible (`crates/wal/src/wal.rs:56-67` says never):
  complete records of a batch caught mid-append are replayed. `UnacknowledgedIsVisible`
  says exactly which: those whose bytes survive whole. `UnacknowledgedAppears` is a run.
- `Bounds::between` with an inverted pair is documented as empty
  (`crates/storage-api/src/bounds.rs:34-43`); scanning it panics (`HalfOpenPair`).
- Reopening after history compaction may move the current revision back
  (`crates/mvcc/src/store.rs:104`): `ReopenKeepsRevision` says exactly when,
  `ReopenRestartsGenerations` exactly what else changes, `RestartLosesRevision` is a run.
- Reopening also forgets the watermark (`crates/mvcc/src/store.rs:113`), so reads promised
  to be refused from then on (`:265-266`) are admitted again. `ReopenForgetsWatermark` says
  exactly which of them are right, `RestartAdmitsLostReads` is a run.
- At an interval of two segments there need not always be a sealed segment behind the
  active one (`crates/wal/src/wal.rs:20-25`): a batch can take more than a segment.
  `DueFindsSealed` says exactly when there is one, `CheckpointsPayOff` which batch sizes
  keep the promise, `OversizedFreesNothing` is a first batch that breaks it.
- A failed history compaction has already trimmed the index but not moved the watermark
  (`crates/mvcc/src/store.rs:281-296`). Reads at or after the requested point are
  unaffected (`PartialCompactionKeepsReads`); earlier ones are still admitted, and wrongly
  miss exactly the keys present then whose reading changed by the point
  (`PartialCompactionMisreads`, `FailedCompactionHides`).
- The index has then forgotten records that are still stored, and a later compaction may
  remove a deletion's record without that of the put before it; a restart brings the key
  back (`RestartRevivesDeleted`). `ReadsSurviveRestarts` says exactly which keys, and
  `CarefulReadsSurvive` that restarting before compacting any further avoids it.

## Model

| member | source | states |
|---|---|---|
| `LogRuns.CrashSafety` | crates/wal/src/wal.rs:197-257 | After any prudent run of retires, torn writes, failed rewinds, rollovers, checkpoints, removals, process deaths, power losses, recoveries and reopenings: the log is never refused; a store that is up is exactly the one the kept mutations make; one that is down can be recovered and reopened to be exactly that; acknowledged batches are kept whole, and of the others only one that a failure exposed keeps anything, and then a prefix. |
| `LogRuns.LogOnlyGrows` | crates/wal/src/wal.rs:56-67 | What the log keeps is a prefix of what it keeps at any later point of a prudent run: nothing acknowledged is lost, reordered or renumbered by anything that happens later. |
| `LogRuns.RunKeeps` | crates/wal/src/writer.rs:191-207 | The invariant behind crash safety holds after every prudent run: segments hold the log, everything acknowledged is flushed, every backend state a crash may restore reopens to the store of a prefix of the log that the first segment does not start after. |
| `LogRuns.RetireKeeps` | crates/wal/src/writer.rs:175-208 | Retiring a batch, however its rollover, append, flush or apply fails, keeps the invariant and only ever adds to the log. |
| `LogRuns.AcknowledgedKeeps` | crates/wal/src/writer.rs:197-207 | An acknowledged batch is in the log whole, flushed, and the store then holds the longer log. |
| `LogRuns.FailureKeeps` | crates/wal/src/segment.rs:99-129 | A batch that failed after some of it was written leaves the log and the store as they were, its bytes past the end of the log. |
| `LogRuns.GetsReady` | crates/wal/src/writer.rs:191-196 | What an append goes to has nothing past the log and is not poisoned; rolling over seals a whole, non-empty segment and so never a poisoned one, whatever the segment limit. |
| `LogRuns.CheckpointKeeps` | crates/mvcc/src/store.rs:148-160 | A checkpoint leaves the log alone; once it succeeded, everything applied so far is what a power loss restores. |
| `LogRuns.RemoveKeeps` | crates/wal/src/wal.rs:273-282 | Stopping after any single removal, every record past the position of any state that may be restored is still in a segment. |
| `LogRuns.CrashKeeps` | crates/wal/src/wal.rs:223-227 | A power loss that keeps any byte prefix of what was not flushed and restores any backend commit that replayed nothing lost with it leaves the log, followed by whole records of the exposed batch and a torn rest that holds no complete record. |
| `LogRuns.KillKeeps` | crates/wal/src/wal.rs:223-227 | A process death keeps every byte and every commit up to any one: the same log, and what it exposed still unsettled until the log is reopened. |
| `LogRuns.LossKeeps` | crates/wal/src/wal.rs:223-227 | Whatever a power loss takes, the files left hold the log in its new trace, which only grew. |
| `LogRuns.AnyBeginningSurvives` | crates/wal/src/wal.rs:223-227 | What a power loss may keep of a file is any beginning of it that has everything flushed, and nothing else. |
| `LogRuns.PowerLossIsExact` | crates/wal/src/wal.rs:116-128 | A power loss at any point of any prudent run, recovery already begun or not, leaves a log that recovery accepts and makes whole if and only if it took no record the restored backend state had already replayed; otherwise recovery refuses it. |
| `LogRuns.OnlyUnsettledIsAtRisk` | crates/wal/src/wal.rs:116-128 | And it can take one only between the recovery that replayed what a dead process left unflushed and the end of the reopening that flushes it. |
| `LogRuns.RecoverKeeps` | crates/wal/src/wal.rs:244-256 | Recovery never refuses what a crash left, and completes whenever the backend accepts its batch; a crash during recovery may be recovered from again. |
| `LogRuns.ReopenKeeps` | crates/wal/src/wal.rs:122-128 | Reopening discards exactly what lies past the log, settles what was exposed, and leaves a running log; failing, even after the cut took effect, it leaves the log as it was. |
| `LogRuns.SplitAtCut` | crates/wal/src/wal.rs:223-227 | Any cut of a batch's encoding is its whole records and then a beginning of the next that holds none. |
| `LogGuarantees.LogShape` | crates/wal/src/segment.rs:99-134 | At every reachable running state: each sealed segment ends on a complete record and starts where its predecessor's records end; a poisoned segment is not full, or rolling over would reuse its own name, so it is never sealed; the active one never reads as damaged, and unless a batch is caught past the log, ends exactly at the store's applied position. |
| `LogGuarantees.ReadsSeeTheLog` | crates/mvcc/src/store.rs:225-261 | Every range read of a running log's store that names no revision answers with the replay of the whole surviving log, one that names a revision of it with the replay up to there, the first rows up to the limit, and one past its end is refused. |
| `LogGuarantees.AnsweredRevisionsStand` | crates/wal/src/wal.rs:141-155 | The revisions an acknowledged caller was answered name its own mutations, in order, in the log of every later state. |
| `LogGuarantees.EveryBatchIsOnce` | crates/wal/src/writer.rs:181-189 | The trace crash safety speaks of lists every submitted batch exactly once, in order. |
| `LogGuarantees.RecoveringTwice` | crates/wal/src/wal.rs:250-254 | Recovering again after a completed recovery changes neither the store, the commits nor the end of the log. |
| `LogGuarantees.RemovalIsMaximal` | crates/wal/src/wal.rs:273-282 | Removing while the next segment starts at or below the durable position removes exactly the redundant segments, never the active one, and then no more can go. |
| `LogMachine.RedundantIsLongest` | crates/wal/src/wal.rs:259-264 | The redundant segments are the longest prefix whose successors all start at or below the durable position. |
| `LogGuarantees.UnacknowledgedIsVisible` | crates/wal/src/wal.rs:56-67 | A power loss adds to a running log exactly the records of the caught batch that lie wholly within the bytes it keeps, and nothing if none is caught; so a write its caller was told had failed becomes visible if and only if its first record survives whole. |
| `LogDrift.DriftIsExact` | crates/wal/src/writer.rs:191-207 | Outside prudence: after any prudent run, a batch lost to a failed flush or apply, a batch acknowledged after it, any power loss and a recovery, the acknowledged log stands, each mutation at its own revision and position, if and only if, with one segment for both, the restored state had applied the acknowledged batch or the file reads it where it was numbered; and, with the lost batch filling its segment, no record of it is cut through and either none is left or the restored state had applied the acknowledged batch and no more are left than that one has. |
| `LogAftermath.AftermathIsExact` | crates/wal/src/writer.rs:175-208 | However long the log is written on: after any prudent run and then any retires, lost or acknowledged, rollovers, checkpoints and removals, a process death or power loss and a recovery, everything acknowledged stands, each mutation at its revision, if and only if scanning the files left meets no damage and finds, past the position of the state restored, first the acknowledged mutations it had not applied, numbered on without gap or overlap. |
| `LogAftermath.WrittenContinues` | crates/wal/src/wal.rs:205-242 | With the files holding one written log end to end, that is: written and acknowledged mutations agree from the restored position to the end of the acknowledged. |
| `LogAftermath.StaysRight` | crates/wal/src/writer.rs:197-207 | While the log stays up, however imprudently, its store holds exactly what was acknowledged, and every backend state a crash may restore a beginning of it. |
| `LogAftermath.ReadsStayRight` | crates/mvcc/src/store.rs:225-261 | And its reads, at any readable revision, are the replay of the acknowledged log. |
| `LogOutcomes.OutcomeIsExact` | crates/wal/src/writer.rs:175-208 | The same question in terms of the run, which batches each segment was given and which were acknowledged: after a power loss or a process death everything acknowledged stands if and only if every sealed segment reads clean, none holds a lost record past the position restored, and in the last the records acknowledged past it come first. Every file reads back as a beginning of what was written to it, everything acknowledged among it. |
| `LogOutcomes.DeathIsExact` | crates/wal/src/writer.rs:175-208 | After a process death, of the run alone: no segment but the last was given a lost batch that reaches past the position restored, and in the last the acknowledged mutations past it were written ahead of any lost one, or agree with what was. |
| `LogOutcomes.PiecesContinue` | crates/wal/src/wal.rs:205-242 | Scanning segments whose acknowledged records follow on from each other numbers them without a gap or an overlap exactly then. |
| `LogLedger.RunHoldsLedger` | crates/wal/src/segment.rs:99-129 | Along such a run each sealed file is exactly the batches written to it, the active one those and perhaps a beginning of another; the acknowledged ones are flushed, and each segment is named by where those of the one before it end. |
| `LogDrift.StandsInOneSegment` | crates/wal/src/segment.rs:123-126 | With both batches in one segment, also what the store then holds: the file's order if the acknowledged batch is replayed, else the acknowledged batch followed by what the file holds past its length. |
| `LogDrift.StandsInTwoSegments` | crates/wal/src/writer.rs:191-196 | With the acknowledged batch in a segment of its own, also when recovery refuses: exactly when a record of the lost batch is cut through. |
| `LogDrift.HoldsDetermines` | crates/mvcc/src/store.rs:171-213 | No two logs make the same store, so a store that holds the wrong log differs from the right one. |
| `LogDrift.RecoversFile` | crates/wal/src/wal.rs:244-254 | From a state older than both batches recovery follows the file, the lost batch first. |
| `LogDrift.RecoversPast` | crates/wal/src/wal.rs:244-254 | From a state that had applied the acknowledged batch recovery appends what the file holds past its position. |
| `LogWitnesses.ImprudenceRenumbers` | crates/wal/src/writer.rs:203-207 | A family of runs in which writing on after a failed flush, then crashing, puts the lost batch before the acknowledged one and takes its revision; such runs are not prudent. |
| `LogWitnesses.ImprudenceDisplaces` | crates/wal/src/writer.rs:191-196 | A family in which the lost batch fills its segment: the acknowledged one, in the next, is not at its revision after a power loss and recovery. |
| `LogWitnesses.TornWriteSurvives` | crates/wal/src/segment.rs:106-121 | A family of prudent runs in which any torn write's whole records, its caller told it failed, are in the log after a power loss. |
| `LogWitnesses.UnacknowledgedAppears` | crates/wal/src/wal.rs:56-67 | Among them: one refused mutation that is then all of the log. |
| `LogWitnesses.ReplayedCanBeLost` | crates/wal/src/wal.rs:116-128 | A prudent run, a failed flush and a process death, that one power loss during recovery leaves refused: the backend kept what the file lost. |
| `Recovery.RecoveryCompletes` | crates/wal/src/wal.rs:197-257 | From any store holding a prefix of the log not before its first segment, recovery succeeds and the store holds the log and the complete records of its torn tail, each applied once; the end of the log is where those records end. |
| `Recovery.RecoveryIsIdempotent` | crates/wal/src/wal.rs:244-256 | Recovering from the store recovery left gives the same store and the same end of the log. |
| `Recovery.StoreAheadIsRefused` | crates/wal/src/wal.rs:244-248 | A store that has applied more than the log holds is refused as corrupt. |
| `Recovery.GapIsNotRecovered` | crates/wal/src/wal.rs:259-264 | From a store behind the first segment recovery reports success but never reaches the log's store, which is why a segment may go only once its successor's start is durable. |
| `Recovery.ScanWhole` | crates/wal/src/wal.rs:205-242 | Reading the segments in order finds every record past the store's position once, none skipped, and points at the end of the last complete record. |
| `Recovery.LastSegmentParses` | crates/wal/src/wal.rs:212-239 | The last segment reads back as its part of the log and the whole records of its torn tail, and never as damaged. |
| `Recovery.ReplaySegment` | crates/wal/src/wal.rs:206-241 | The replay loop over one segment: accepts a torn end only in the last, and yields its records past the applied position and the width of the complete ones. |
| `Recovery.ScanLog` | crates/wal/src/wal.rs:205-242 | The loop over segments gathers what `ScanFiles` describes, failing at the first damaged one. |
| `Recovery.Recover` | crates/wal/src/wal.rs:197-257 | Recovery on a store object: the store, its commits and the reported end of the log are those of `RecoverOf`; every error leaves the store alone. |
| `LogDamage.DamageIsRefused` | crates/wal/src/wal.rs:223-248 | Recovery refuses a log as corrupt if and only if some segment holds, after complete records, bytes that read as corrupt, or one but the last ends in a truncated record, or the store has applied more than the last segment reaches; otherwise it is no fault of the log if it fails. |
| `LogDamage.DamagedLogIsRefused` | crates/wal/src/wal.rs:234-239 | Damaged bytes past the log in any of its segments, the last included, are refused whatever the store has applied, and not cut away. |
| `LogDamage.ImplausibleIsRefused` | crates/wal/src/frame.rs:51-53 | A first segment of one implausible header is refused. |
| `LogDamage.ReadsAs` | crates/wal/src/wal.rs:212-239 | Any bytes are complete records and then nothing, a truncated or a corrupt one; reading them yields just those records and tells which of the three follows. |
| `LogDamage.ReadsPast` | crates/wal/src/wal.rs:212-239 | How reading goes on after complete records depends only on what follows them. |
| `LogStores.AppliedWhole` | crates/wal/src/wal.rs:250-254 | The store of a log is that of applying it in one batch, however it was batched. |
| `LogStores.BatchesJoinLog` | crates/mvcc/src/store.rs:171-213 | Applying a batch to the store of a log gives the store of the longer log. |
| `LogStores.StoreOfRepresents` | crates/mvcc/src/store.rs:171-213 | The store of a log represents the events its mutations became. |
| `LogStores.HoldsReopens` | crates/mvcc/src/store.rs:66-117 | Reopening the backend of a log's store gives that store back, an empty one that has checkpointed included. |
| `LogStores.CheckpointHolds` | crates/mvcc/src/store.rs:148-160 | A checkpoint changes nothing of what a store holds. |
| `LogShapes.LogGrows` | crates/wal/src/writer.rs:197-198 | Records appended to the active segment extend the log the segments hold. |
| `LogShapes.LogRolls` | crates/wal/src/writer.rs:191-196 | Sealing a non-empty active segment with nothing past the log keeps the segments contiguous. |
| `LogShapes.LogDrops` | crates/wal/src/wal.rs:280-281 | Losing the first segment leaves the others holding the rest of the log. |
| `Segments.FileHoldsWholeBatches` | crates/wal/src/segment.rs:99-129 | After any appends with any short writes, failed rewinds and failed flushes, the file is whole batches in order, every acknowledged one among them, then, only once poisoned, a prefix of one failed batch. |
| `Segments.PoisonIsFinal` | crates/wal/src/segment.rs:100-105 | After a failed rewind the file never changes again and nothing is acknowledged. |
| `Segments.AcknowledgedIsSynced` | crates/wal/src/segment.rs:92-94 | When an append reports success nothing in the file is unflushed. |
| `Segments.RewoundIsSynced` | crates/wal/src/segment.rs:106-121 | A torn write that was rewound leaves nothing of itself and nothing unflushed. |
| `Segments.AppendsStayValid` | crates/wal/src/segment.rs:123-126 | The counted length never passes the file, and matches it unless poisoned. |
| `Segments.Segment.Append` | crates/wal/src/segment.rs:99-129 | The append method, on an object whose sink may stop short, fail to truncate or fail to flush, does exactly what the fault machine describes. |
| `Segments.Segment.Reopen` | crates/wal/src/segment.rs:63-79 | Reopening keeps exactly the valid bytes, flushed; or fails, with the file as it was or cut and not flushed. |
| `Segments.Sink.WriteAll` | crates/wal/src/io.rs:64-78 | A write lands whole, or stops at any byte and reports failure. |
| `Segments.Sink.Truncate` | crates/wal/src/io.rs:90-103 | A truncation cuts the file and flushes it, leaves it as it was, or cuts it and fails to flush. |
| `Frames.FrameRoundTrip` | crates/wal/src/frame.rs:12-65 | A framed payload decodes to itself and its width, whatever follows it. |
| `Frames.TornFrame` | crates/wal/src/frame.rs:39-58 | Every proper prefix of a frame reads as truncated, never as corrupt. |
| `Frames.DecodedIsFrame` | crates/wal/src/frame.rs:41-65 | Whatever decodes is byte for byte a frame the encoder writes. |
| `LogDamage.CorruptFrame` | crates/wal/src/frame.rs:41-65 | A frame reads as corrupt if and only if its length field states more than 64 MiB, or all of it is there and its checksum field is not the checksum of its length field and payload; as truncated if and only if its header or a plausible payload is cut short. |
| `Frames.Encode` | crates/wal/src/frame.rs:12-31 | Appends the frame to the caller's buffer exactly when the payload is at most 64 MiB, and otherwise leaves the buffer alone. |
| `LogRecords.RecordRoundTrip` | crates/wal/src/record.rs:11-71 | A recorded mutation decodes to itself and its width, whatever follows it. |
| `LogRecords.TornRecord` | crates/wal/src/record.rs:37-38 | Every proper prefix of a record reads as truncated. |
| `LogRecords.DecodedIsRecord` | crates/wal/src/record.rs:37-71 | Whatever decodes is byte for byte the record of the mutation it decodes to. |
| `LogDamage.CorruptPayload` | crates/wal/src/record.rs:40-71 | A sound frame's payload is refused as corrupt, never as truncated, if and only if it is shorter than six bytes, has another version, another kind than 1 or 2, a key that runs past its end, or is a deletion with a value; kind 1 is a put and 2 a deletion. |
| `LogDamage.CorruptRecord` | crates/wal/src/record.rs:37-71 | A record is corrupt exactly if its frame is, or a sound frame's payload. |
| `LogRecords.EncodeRecord` | crates/wal/src/record.rs:11-35 | Appends a mutation's record exactly when its key is shorter than 2^32 bytes and its payload at most 64 MiB, and otherwise leaves the buffer alone. |
| `LogRecords.CutLogParses` | crates/wal/src/wal.rs:212-239 | For any mutations and any byte cut of their encoding, the replay loop yields exactly the records lying wholly before the cut, their total width, and then the end or a torn record, never a corrupt one. |
| `LogRecords.LogThenCutParses` | crates/wal/src/wal.rs:212-239 | The same for a log followed by a cut of further records. |
| `LogRecords.WholeLogParses` | crates/wal/src/wal.rs:212-239 | An uncut log reads back whole and ends cleanly. |
| `Joined.WithinIsMaximal` | crates/wal/src/wal.rs:212-239 | The records within a cut are the most that fit it. |
| `WriterGuarantees.EveryCallerIsAnswered` | crates/wal/src/writer.rs:126-172 | Over a whole run every write is answered exactly once in queue order, the revisions answered together are exactly those the store took, gap-free and without repeats, and every checkpoint is answered or dropped once, in order. |
| `WriterGuarantees.EveryCallerGetsItsOwn` | crates/wal/src/writer.rs:211-226 | Each successful caller gets as many revisions as it sent mutations, numbered on from all answered before it, in its turn in the queue. |
| `WriterGuarantees.SharesAreOwn` | crates/wal/src/writer.rs:211-219 | Splitting a batch's revisions gives each caller the run that starts where its own mutations start in the batch. |
| `WriterGuarantees.SharesUpTo` | crates/wal/src/writer.rs:211-226 | The first callers of a batch between them get its first revisions, all callers all of them; a failed batch gives none to anyone. |
| `WriterGuarantees.ReplyMatchesStore` | crates/wal/src/writer.rs:175-208 | A batch is answered with revisions exactly when the log acknowledged it, those its mutations took; otherwise the store is untouched. |
| `WriterGuarantees.RefusedBecause` | crates/wal/src/writer.rs:175-208 | A batch fails as corrupt if and only if some key has 2^32 bytes or some payload more than 64 MiB, as an I/O failure if and only if rolling over, writing or flushing failed, and as not applied if and only if it was appended and the store refused it. |
| `WriterGuarantees.FailureIsShared` | crates/wal/src/writer.rs:220-224 | Every caller of a failed batch is told its failure. |
| `WriterGuarantees.CheckpointFollowsWrites` | crates/wal/src/writer.rs:154-164 | A checkpoint is answered only after every write queued before it has been. |
| `WriterGuarantees.RoundIsBounded` | crates/wal/src/writer.rs:146-152 | A round holds at most 256 writes, and closes only when it holds that many or nothing is waiting. |
| `WriterGuarantees.ServingIsSteps` | crates/wal/src/writer.rs:126-172 | Serving any queue is a run of the machine crash safety is proved of, so a crash may come between any two of its steps. |
| `WriterGuarantees.CompactionIsSteps` | crates/wal/src/wal.rs:265-285 | One compaction is a checkpoint step and then single removals. |
| `WriterLog.AnsweredIsRead` | crates/wal/src/writer.rs:211-226 | After a prudent run and a queue served, whatever failed meanwhile, and then anything while the log stays up or, if all was prudent, anything prudent, crashes included, the events at the revisions any caller was answered are that caller's mutations, in order. |
| `WriterLog.ServedIsLogged` | crates/wal/src/writer.rs:126-172 | While a queue is served, failures and retires after them included: each answer's revisions are the positions its mutations have in the log. |
| `WriterCheckpoints.DroppedExactly` | crates/wal/src/writer.rs:140-152 | Over a whole run a checkpoint request's channel is dropped unanswered if and only if a later request was taken by its round. |
| `WriterCheckpoints.FirstOfTwoDropped` | crates/wal/src/writer.rs:143-149 | Of two requests waiting together the first is dropped. |
| `WriterCheckpoints.AnsweredWhatWasFreed` | crates/wal/src/writer.rs:157-163 | A requested checkpoint is answered last in its round, with how many segments went; succeeding, it has made everything the round wrote durable; it fails if and only if the flush, the listing or a removal that was due did. |
| `WriterSpace.CheckpointsPayOff` | crates/wal/src/wal.rs:15-28 | Where no round's batch takes more than the interval leaves beside a segment, at every automatic checkpoint of a run, whatever fails, something is sealed, and one that succeeds frees all of it and leaves the active segment only. |
| `WriterSpace.DueFindsSealed` | crates/wal/src/wal.rs:20-25 | When a batch makes a checkpoint due, nothing is sealed if and only if nothing was before it and it did not begin a segment. |
| `WriterSpace.CompactionFreesAll` | crates/wal/src/wal.rs:265-285 | A compaction that succeeds counts and removes every sealed segment; one that fails leaves one if there was one. |
| `WriterSpace.SpaceIsBounded` | crates/wal/src/wal.rs:11-28 | While flushes succeed, torn writes, failed rewinds and failed compactions included, the log on disk never outgrows one segment, two batches and what was appended since a compaction last succeeded. |
| `WriterSpace.CountsSinceFreed` | crates/wal/src/writer.rs:157-170 | The writer's count is what was appended since a compaction last succeeded: a failed one forgets nothing, and the next round tries again. |
| `WriterSpace.FreedInTime` | crates/wal/src/writer.rs:165-170 | While compactions succeed that stays below the interval. |
| `WriterSpace.CompactionStaysBounded` | crates/wal/src/writer.rs:157-170 | A compaction that fails keeps the count and adds no bytes; one that succeeds leaves the active segment and counts anew. |
| `WriterSpace.StartsBehind` | crates/wal/src/wal.rs:122-138 | Any log a prudent run left up, reopened or not, meets what these ask of the start. |
| `WriterSpace.OversizedFreesNothing` | crates/wal/src/wal.rs:20-25 | At an interval of two segments, a first batch of that many bytes makes a checkpoint due that finds nothing sealed and frees nothing. |
| `Writers.LogWriter.Run` | crates/wal/src/writer.rs:126-172 | The draining loop serves the queue as `Serve` describes: rounds, replies, checkpoints on request or when enough was appended. |
| `Writers.LogWriter.Gather` | crates/wal/src/writer.rs:140-152 | Blocks for one message, then takes what is waiting until the batch is full; a second checkpoint request displaces the first. |
| `Writers.LogWriter.ServeRound` | crates/wal/src/writer.rs:154-171 | One round retires and answers its writes before it compacts. |
| `Writers.LogWriter.Retire` | crates/wal/src/writer.rs:175-208 | Encode, roll over, append, flush, apply, in that order; the log, store and reply are those of the machine, every failure included. |
| `Writers.LogWriter.AppendAndApply` | crates/wal/src/writer.rs:197-207 | A batch is applied only after its append succeeded. |
| `Writers.LogWriter.RollOver` | crates/wal/src/segment.rs:86-88 | The old segment is sealed as it is and the new one starts at the store's applied position. |
| `Writers.LogWriter.AnswerBatch` | crates/wal/src/writer.rs:211-226 | Drains the batch, replying to every caller in order. |
| `Writers.LogWriter.Compact` | crates/wal/src/wal.rs:265-285 | A durable checkpoint, then a listing, then the removal of the redundant segments; nothing is removed unless both succeeded, and a failed removal leaves the rest. |
| `Writers.LogWriter.RemoveRedundant` | crates/wal/src/wal.rs:273-284 | The removal loop removes exactly the redundant prefix, or the part of it before the removal that failed. |
| `Writers.EncodeBatch` | crates/wal/src/writer.rs:182-189 | Encodes all the batch's mutations end to end, or refuses the batch if any is too long to record. |
| `Opening.OpenWith` | crates/wal/src/wal.rs:113-139 | Opening lists, recovers and reopens or creates; the writer it starts is exactly the machine that recovering and reopening make, with nothing yet counted and the checkpoint interval it was given, and it fails exactly when they do or a segment's name is unreadable. |
| `Opening.OpenAndServe` | crates/wal/src/wal.rs:113-139 | A queue served after opening is served from the machine recovered, at the interval given, down to every reply. |
| `Opening.StartWriter` | crates/wal/src/wal.rs:123-138 | Appending resumes where recovery found the log to end, in the last segment or in a first one. |
| `Opening.List` | crates/wal/src/segment.rs:145-167 | Segment files come out ordered by first record, each as often as the directory lists it; others are skipped, an unreadable name is an error. |
| `Opening.ListingIsDetermined` | crates/wal/src/segment.rs:137-140 | Whatever order the directory lists them in, segments with rising names come out in that order. |
| `Opening.LogIsInOrder` | crates/wal/src/segment.rs:137-140 | The segments of a log have strictly rising names. |
| `Indexes.CompactionsCollapse` | crates/mvcc/src/index.rs:115-121 | After any interleaving of puts, deletes and compactions with rising revisions the index is one compaction, at the last watermark, of the never-compacted index. |
| `Indexes.ReadsSurviveCompaction` | crates/mvcc/src/index.rs:106-114 | Every read at or after the last watermark finds the presence, modified, created and version that replaying the whole event log gives. |
| `Indexes.TrimIndexTwice` | crates/mvcc/src/index.rs:182-210 | Compacting twice is compacting once at the later point. |
| `Indexes.TrimIndexCommutes` | crates/mvcc/src/index.rs:182-210 | Compaction commutes with any write above it. |
| `Indexes.IndexIsHistories` | crates/mvcc/src/index.rs:52-93 | The index built by a log holds each key's history of that log and nothing else. |
| `Histories.ReadIsReplay` | crates/mvcc/src/index.rs:140-180 | A read of a key's history is the naive replay of the event log. |
| `Histories.TrimKeepsReads` | crates/mvcc/src/index.rs:106-114 | Compaction leaves every read at or after its point unchanged, the version counter included. |
| `Histories.ReadsBeforePoint` | crates/mvcc/src/index.rs:106-114 | A read before the point finds what it did unless the key was present then and what is found changed by the point; in that case it finds nothing. |
| `Histories.TrimTwice` | crates/mvcc/src/index.rs:182-210 | For one key: compacting at two points is compacting at the later. |
| `Histories.TrimCommutesWithWrites` | crates/mvcc/src/index.rs:182-210 | For one key: a write above the point may be recorded before or after compacting. |
| `Histories.DroppedComplementsTrim` | crates/mvcc/src/index.rs:189-207 | Dropped and kept revisions partition the old ones; of each generation a suffix is kept. |
| `Histories.EndedIsGone` | crates/mvcc/src/index.rs:112-114 | A key deleted at or below the point keeps nothing from that generation or any earlier. |
| `Histories.TrimValid` | crates/mvcc/src/index.rs:139-164 | Compaction keeps generations ordered, non-empty and closed but for the last. |
| `Indexes.Locate` | crates/mvcc/src/index.rs:140-164 | The backward search finds the one generation live at a revision and its last visible write, or that there is none. |
| `Indexes.ReadAt` | crates/mvcc/src/index.rs:166-180 | What the search reports is the read of the history. |
| `Indexes.SplitGeneration` | crates/mvcc/src/index.rs:186-204 | The inner loop keeps exactly the revisions past the cut and appends the others to those dropped. |
| `Indexes.CompactHistory` | crates/mvcc/src/index.rs:182-210 | Compacting one history in place keeps its trimmed form and reports what went, in order. |
| `Indexes.Index.Put` | crates/mvcc/src/index.rs:52-69 | A put extends an open generation or begins one, and leaves other keys alone. |
| `Indexes.Index.Tombstone` | crates/mvcc/src/index.rs:75-93 | A deletion closes an open generation and says so; of an absent key it records nothing. |
| `Indexes.Index.Range` | crates/mvcc/src/index.rs:96-104 | Every key in range visible at the revision, ascending, with what the read of its history finds. |
| `Indexes.Index.Compact` | crates/mvcc/src/index.rs:115-121 | Every key's history is compacted, keys left with none are forgotten, and the dropped revisions are returned in key order. |
| `StoreReads.ReadIsReplayedKeyspace` | crates/mvcc/src/store.rs:225-261 | A read means the revision it names, or the current one. Past the current one and before the watermark it is refused, with both numbers; otherwise it is the replayed keyspace restricted to the range, ascending, as many rows as the limit admits; the missing-record error is never reached. |
| `StoreReads.ReadsBackUnique` | crates/mvcc/src/store.rs:215-218 | That description determines the answer. |
| `StoreReads.FoundIsStored` | crates/mvcc/src/store.rs:243-249 | Whatever the index finds has its backend record, with the right key and value. |
| `StoreReads.FetchRefuses` | crates/mvcc/src/store.rs:243-249 | A read fails as corrupt if and only if a record it needs is missing or malformed. |
| `StoreInvariant.ApplyKeepsInvariant` | crates/mvcc/src/store.rs:171-213 | Applying a batch keeps index, backend, current revision and applied position in agreement with the log extended by the batch's events. |
| `StoreInvariant.CheckpointKeepsInvariant` | crates/mvcc/src/store.rs:148-160 | So does a checkpoint. |
| `StoreInvariant.RevsOfHistory` | crates/mvcc/src/store.rs:201-208 | The backend records the index does not know are exactly deletions of absent keys. |
| `StoreInvariant.SurvivalIsStable` | crates/mvcc/src/store.rs:272-299 | Later events never change which earlier records a compaction left. |
| `StoreCompaction.CompactKeepsInvariant` | crates/mvcc/src/store.rs:272-299 | Compaction keeps the agreement at its new watermark: the records left are those of surviving revisions and of absent deletions, and no others. |
| `StoreCompaction.PartialCompactionKeepsReads` | crates/mvcc/src/store.rs:281-295 | However many records the backend removed before it failed, everything a read at or after the point needs is still there. |
| `StoreCompaction.PartialCompactionMisreads` | crates/mvcc/src/store.rs:281-296 | A read between the old watermark and the point of a compaction that failed is still admitted, and reads a key as replay does unless it was present then and what replay gives changed by the point: then, and only then, it wrongly finds nothing. |
| `StoreCompaction.CompactionCount` | crates/mvcc/src/store.rs:298 | The count compaction returns is the number of records that left the backend. |
| `StoreCompaction.RepeatDropsNothing` | crates/mvcc/src/store.rs:272-299 | Compacting again at the same point drops nothing. |
| `StoreCompaction.DroppedIsNoLongerSurviving` | crates/mvcc/src/index.rs:193-200 | A record is dropped exactly when it survived before and does not survive the new point. |
| `StoreReopen.ReopenSucceeds` | crates/mvcc/src/store.rs:66-117 | Reopening a backend this store wrote never fails, and rebuilds the index of the surviving events. |
| `StoreReopen.ReopenIsIdentity` | crates/mvcc/src/store.rs:66-117 | Without history compaction reopening reproduces index, current revision and applied position exactly. |
| `StoreReopen.ReopenKeepsReads` | crates/mvcc/src/store.rs:92-105 | With it, presence, modified revision and value still agree with the replay at or after the watermark, leftover tombstones of absent keys included. |
| `StoreReopen.ReopenForgetsWatermark` | crates/mvcc/src/store.rs:108-116 | Below the watermark, which a reopen forgets, a read is admitted up to the current revision and finds a key if and only if replay finds it there and finds the same at the watermark. |
| `StoreReopen.ReopenRestartsGenerations` | crates/mvcc/src/store.rs:108-116 | What changes is exactly this: each generation restarts at its first kept revision, with its kept revisions as its version count. |
| `StoreReopen.ReopenKeepsRevision` | crates/mvcc/src/store.rs:104 | The current revision survives a reopen if and only if history was not compacted at a current revision that deleted an existing key. |
| `StoreReopen.ReopenedRepresents` | crates/mvcc/src/store.rs:108-116 | A reopened store keeps every guarantee from then on, for the log of surviving events. |
| `StoreReopen.ScanFollowsLog` | crates/mvcc/src/store.rs:78-105 | The rebuild visits the surviving events in the order they happened: byte order of keys is revision order. |
| `StoreReopen.OpenRefusesForeign` | crates/mvcc/src/store.rs:66-100 | Opening refuses a backend as corrupt if and only if it holds a key beginning with `t` that no revision has, or such a key with a malformed record, or a malformed position marker. |
| `StoreRuns.RunTracks` | crates/mvcc/src/store.rs:59-310 | After any run of batches, failed batches, compactions, compactions the backend failed part way, checkpoints and restarts, index and records serve every read at or after the highest point compaction was tried at, and nothing is stored but records of the run's events. |
| `StoreRuns.RunRepresents` | crates/mvcc/src/store.rs:59-310 | Where no compaction failed since the last restart, exactly the records that the index accounts for are stored. |
| `StoreRuns.ReadsSurviveRestarts` | crates/mvcc/src/store.rs:225-261 | After any such run, a read at or after the highest point tried lists exactly the keys the replay of all events leaves, with its values and modified revisions, and the keys a restart brought back; each of these is one replay does not have. |
| `StoreRuns.CarefulReadsSurvive` | crates/mvcc/src/store.rs:225-261 | If after a failed compaction none is tried at a higher point before a restart, nothing is brought back: such reads are those of the replay. |
| `StoreRuns.ReadsBelowTried` | crates/mvcc/src/store.rs:281-296 | After any run, a read from the watermark on but below the highest point tried since the last restart is admitted and reads the key as replay does, unless it was present then and what replay gives changed by that point: then, and only then, it wrongly finds nothing. |
| `StoreRuns.CarefulBringsNothingBack` | crates/mvcc/src/store.rs:281-296 | That care is enough, whatever was written, checkpointed or restarted in between. |
| `StoreRuns.UnfailedIsCareful` | crates/mvcc/src/store.rs:272-299 | A run in which no compaction fails is careful. |
| `StoreRuns.UncompactedRunsRestartWhole` | crates/mvcc/src/store.rs:66-117 | After any run without history compaction nothing is lost to restarts and one more reopen is the identity. |
| `StoreLeftovers.CompactionTracks` | crates/mvcc/src/store.rs:281-296 | A compaction at any point, below an earlier failed one included, stopped after any number of removals keeps this. |
| `StoreLeftovers.RestartRepresents` | crates/mvcc/src/store.rs:66-117 | A restart on leftover records always succeeds and represents exactly the events whose records are stored. |
| `StoreRestarts.RestartedReads` | crates/mvcc/src/store.rs:92-105 | After it a read at or after the highest point tried is right in presence, value and modified revision if and only if the key is not one that is gone while its last stored record is a put's. |
| `StoreRestarts.StoppedShadowed` | crates/mvcc/src/store.rs:279-295 | A compaction stopped anywhere never leaves a put's record without those of the deletions after it: of each key the older records go first. |
| `StoreRestarts.RemovedInOrder` | crates/mvcc/src/store.rs:279-295 | Of one key, an earlier dropped record is removed before a later one. |
| `StoreRestarts.TombstoneOutlives` | crates/mvcc/src/index.rs:182-210 | Completed compactions leave no put's record without the deletion's either. |
| `StoreWitnesses.RestartLosesRevision` | crates/mvcc/src/store.rs:104 | Put a key, delete it, compact there, restart: the current revision is zero again. |
| `StoreWitnesses.FailedCompactionHides` | crates/mvcc/src/store.rs:279-296 | Put a key twice, a compaction that fails: a read at the first put is answered, without the key. |
| `StoreWitnesses.RestartAdmitsLostReads` | crates/mvcc/src/store.rs:108-116 | Put a key twice, compact, restart: the read refused before is answered, without the key. |
| `StoreWitnesses.RestartRevivesDeleted` | crates/mvcc/src/store.rs:281-296 | Put a key twice, a compaction that fails, delete it, compact past that, write something else, restart: the deleted key is back. |
| `Stores.BatchingIsUnobservable` | crates/mvcc/src/store.rs:164-165 | Applying two batches one after the other gives the same backend, index, revision and position as applying their concatenation. |
| `Stores.NumberingIsUnobservable` | crates/mvcc/src/store.rs:175-192 | And gives every mutation the same revision. |
| `KvStores.KvStore.Open` | crates/mvcc/src/store.rs:66-117 | Opening rebuilds exactly what the backend's records determine, with the same errors. |
| `KvStores.KvStore.Scan` | crates/mvcc/src/store.rs:78-106 | The paging loop sees every revision record once, in key order, and ends. |
| `KvStores.KvStore.Apply` | crates/mvcc/src/store.rs:171-213 | A batch is one commit and all of it, or a storage error and none of it; the revisions returned are its own. |
| `KvStores.KvStore.Checkpoint` | crates/mvcc/src/store.rs:148-160 | A successful checkpoint returns the applied position, has stored it, and leaves nothing older for a crash to restore. |
| `KvStores.KvStore.Range` | crates/mvcc/src/store.rs:225-261 | The read loop returns the rows of `RangeOf`, never more than the limit, and refuses a revision past the current one or before the watermark with both numbers. |
| `KvStores.KvStore.Compact` | crates/mvcc/src/store.rs:272-299 | Compaction in chunks: refused without effect exactly past the current revision or before the watermark, otherwise completed with its count, or stopped by the backend part way with the watermark unmoved. |
| `Revisions.RevisionRoundTrip` | crates/mvcc/src/revision.rs:88-113 | A byte string decodes to a revision if and only if it is that revision's encoding. |
| `Revisions.RevisionOrder` | crates/mvcc/src/revision.rs:88-97 | Encodings order byte-wise exactly as their revisions do, whatever follows them. |
| `Revisions.ForeignRevision` | crates/mvcc/src/revision.rs:104-113 | Decoding refuses exactly what is not seventeen bytes with an underscore in the middle and both numbers in range. |
| `StoredRecord.KeyRoundTrip` | crates/mvcc/src/record.rs:10-45 | A backend key parses to a revision and kind if and only if it is the key written for them. |
| `StoredRecord.KeyOrder` | crates/mvcc/src/record.rs:10-20 | Backend keys order as their revisions, and a tombstone's comes after the plain key of its revision. |
| `StoredRecord.ForeignKey` | crates/mvcc/src/record.rs:27-45 | A key is refused if and only if it is that of no revision, put or deletion; one accepted is `t`, the revision, and 0x01 for a deletion. |
| `StoredRecord.RecordRoundTrip` | crates/mvcc/src/record.rs:48-67 | A stored record decodes to its key and value if and only if the key is shorter than 2^32 bytes. |
| `StoredRecord.MalformedRecord` | crates/mvcc/src/record.rs:62-67 | A stored record is refused exactly if its length field, or the key it states, is cut short. |
| `StoredRecord.PositionRoundTrip` | crates/mvcc/src/meta.rs:11-19 | The applied position is read back as written. |
| `StoredRecord.PositionLayout` | crates/mvcc/src/meta.rs:7-19 | The marker is stored under two fixed bytes and read back from exactly eight. |
| `OrderedScan.PagedScanIsScan` | crates/mvcc/src/store.rs:78-106 | For any page size of at least one the pages concatenate to the single unpaged ascending scan; what is left strictly shrinks. |
| `OrderedScan.ScanListsUpTo` | crates/storage-api/src/mem.rs:168-179 | A scan lists the pairs whose keys are in its range, every one, ascending; with a limit, the first of them, as many as the limit or all if there are fewer. |
| `OrderedScan.AdvanceSplitsScan` | crates/storage-api/src/bounds.rs:90-98 | Advancing past a page leaves exactly the keys after it. |
| `KeyBounds.Bounds.Prefix` | crates/storage-api/src/bounds.rs:70-88 | A key is within the bounds if and only if it begins with the prefix, for every prefix, empty and all-0xff ones included. |
| `KeyBounds.Bounds.All` | crates/storage-api/src/bounds.rs:17-23 | Covers every key. |
| `KeyBounds.Bounds.Point` | crates/storage-api/src/bounds.rs:25-32 | Covers exactly the one key, and scanning it does not panic. |
| `KeyBounds.Bounds.Between` | crates/storage-api/src/bounds.rs:34-43 | Covers the start and the keys after it and before the end; scanning it panics exactly if inverted. |
| `KeyBounds.Bounds.StartAt` | crates/storage-api/src/bounds.rs:45-52 | Covers the start and every key after it. |
| `KeyBounds.Bounds.EndBefore` | crates/storage-api/src/bounds.rs:54-61 | Covers every key before the end. |
| `KeyBounds.SuccessorExact` | crates/storage-api/src/bounds.rs:72-82 | The byte-wise successor ends exactly the range of the prefix's extensions. |
| `KeyBounds.Bounds.AdvancePast` | crates/storage-api/src/bounds.rs:96-98 | Leaves exactly the keys after the one given, up to the same end. |
| `KeyBounds.HalfOpenPair` | crates/storage-api/src/bounds.rs:34-43 | A half-open pair covers nothing if and only if it is equal or inverted, and scanning it panics if and only if it is inverted. |
| `KeyBounds.PanickingIsEmpty` | crates/storage-api/src/bounds.rs:34-43 | Only ranges that cover nothing panic. |
| `ByteStrings.BigEndianOrder` | crates/mvcc/src/revision.rs:88-97 | Big-endian encodings of equal width order byte-wise as their numbers. |
| `ByteStrings.LessMeans` | crates/storage-api/src/engine.rs:13-14 | One byte string is before another if and only if it is smaller at the first difference, or ends there first. |
| `MemEngines.AlwaysIsolated` | crates/storage-api/src/mem.rs:60-142 | However readers and writers interleave: at most one write transaction is unfinished, the committed keyspace is the serial application of the committed transactions in commit order, each once, others leave no trace, writers see the committed keyspace with their own edits, and readers the commits before they opened. |
| `MemEngines.SnapshotsAreKept` | crates/storage-api/src/engine.rs:21-24 | An open reader's snapshot never changes, and commits are only ever added. |
| `MemEngines.AbortedStaysOut` | crates/storage-api/src/engine.rs:96-98 | A transaction that ended without committing never commits. |
| `MemEngines.DropReleasesOnce` | crates/storage-api/src/mem.rs:128-142 | Dropping a finished transaction does not release the gate again. |
| `MemEngines.GateIsFreed` | crates/storage-api/src/mem.rs:144-160 | Whenever the gate is held, its holder alone can free it. |
| `MemEngines.MemWrite.Commit` | crates/storage-api/src/mem.rs:111-115 | Publishes the working keyspace and only then releases the slot, as the interleaved commit actions do. |
| `MemEngines.MemWrite.Abort` | crates/storage-api/src/mem.rs:122-125 | Releases the slot and leaves the committed keyspace alone. |
| `MemEngines.MemWrite.Finish` | crates/storage-api/src/mem.rs:130-135 | Releases the slot exactly once, however often it is reached. |
| `MemEngines.MemWrite.Drop` | crates/storage-api/src/mem.rs:138-142 | Finishes an unfinished transaction and has no effect on a finished one. |
| `MemEngines.MemWrite.Insert` | crates/storage-api/src/mem.rs:102-105 | Changes the working keyspace only. |
| `MemEngines.MemWrite.Remove` | crates/storage-api/src/mem.rs:107-109 | Removes from the working keyspace only and returns the old value. |
| `MemEngines.MemEngine.BeginRead` | crates/storage-api/src/mem.rs:64-68 | A reader's snapshot is the committed keyspace at that moment. |
| `MemEngines.MemRead.Get` | crates/storage-api/src/mem.rs:81-84 | A reader finds what the commits before it began left, whatever was committed since. |
| `MemEngines.MemRead.Range` | crates/storage-api/src/mem.rs:86-88 | And lists that: the pairs in its range, ascending, as many as the limit admits. |
| `MemEngines.MemWrite.Get` | crates/storage-api/src/mem.rs:91-94 | A writer finds what the committed transactions and then its own edits left, and nobody else's. |
| `MemEngines.MemWrite.Range` | crates/storage-api/src/mem.rs:96-98 | And lists that: the pairs in its range, ascending, as many as the limit admits. |
| `MemEngines.MemEngine.BeginWrite` | crates/storage-api/src/mem.rs:70-78 | A writer takes the gate and only then copies the committed keyspace to work on; while another is unfinished it gets nothing and waits, and nothing changes. |

## Left out

- LogRuns.CrashSafety: does not cover batches retired after a failed flush or apply and before a restart, nor a power loss of records already replayed, since it is false of them; `OutcomeIsExact`, `DeathIsExact` and `PowerLossIsExact` say exactly when.
- StoreRuns.RunRepresents: is not claimed between a compaction the backend failed and the next restart, when other records are stored too; `RunTracks` covers those states.
- LogRuns.CrashSafety: excludes `KvStore::compact`, after which a reopened store's revisions no longer follow the log's positions; `StoreRuns` covers runs with it.
- StoreRuns.RunRepresents: assumes keys shorter than 2^32 bytes, past which a stored record's length prefix saturates (`StoredRecord.RecordRoundTrip`).
- Histories and their generations are values owned by the index's map, so aliasing between a history and its map entry is not modelled.
- The backend engine under the store is an ordered map with atomic commits and a durable point, as its trait's contract describes; read errors inside a transaction are not modelled, nor is `crates/storage-redb`.
- `KvStore` methods are single atomic steps; lock guards and lock poisoning are not modelled.
- `KvStore::range` opens a write transaction and so waits for writers; only its answer is modelled.
- The file system: names, directory creation and directory flushes. A created or removed segment is durable at once; `Segment::create` may fail only when the name is taken or by an input.
- LogDamage.CorruptFrame: says when a checksum is refused; which flipped bits change a checksum is not claimed, as it is any function.
- MemEngines.Gate.Acquire: reports that its caller must wait; the loop that waits and tries again on wake-up is the interleaved model's `Acquire` action, which leaves its thread waiting while the gate is held.
- WriterCheckpoints.DroppedExactly: speaks of the queue. In the program a displaced request has no live caller: `Wal::checkpoint` borrows its log exclusively (`crates/wal/src/wal.rs:174`), so a second request can only be sent once the first call was abandoned.
- A truncation whose flush failed: after a power loss the cut bytes may be back. Here they are gone from the file; the states with them back are also reached when the truncation left the file unchanged, and those the theorems cover.
- Channels, threads and async waiting: the queue is a sequence of polls, each finding a message or nothing; replies are recorded in order. The panic of the writer thread when revisions run out is excluded by `Room`.
- `Segment::list` sorts by insertion here, the library's sort there.
- `Revision::next_sub`, `as_wire`, metrics, logging, `crates/hadar`, `crates/api`, `proto`: no logic the properties need.
