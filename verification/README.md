# Verification of the crash-tolerant core

A Dafny model of the parts of the pipeline that make its answers right although workers
die at any instant and the broker delivers at least once, with proofs about all their runs.
`dafny verify dfyconfig.toml` checks everything.

## What is modelled

**Checkpoints** (`bytes`, `store`, `checkpoint`, `file_stores`, `coordinator`). A client's
two overwrite slots and its append log down to the bytes, every disk operation as a step that
may be torn, crashes at every point of a checkpoint and of a recovery. The append is the commit;
recovery decides by the log alone. The coordinator and its stores are classes whose methods
run exactly the operations of the step system.

**Exactly-once effect and acks** (`dedup`, `publisher`, `exactly_once`, `deliveries`,
`flushes`, `crash_free_results`). A process with many clients, any message delivered any number of times
at any time, flushes that may interleave the clients' checkpoints, acks, crashes and restarts.
The accumulator of partial counts and the set of result accounts are instances.

**EOF barrier** (`eof_control`, `eof_barrier`, `eof_rounds`, `eof_runs`, `eof_done`, `eof_alone`,
`eof_disorder`, `keyed_workers`, `msgid`). The controller as a class, and N replicas in which batches move between
replicas, control messages are never removed and so may be late, repeated or missing, and replicas
crash back to their last snapshot at any moment. Exactly when its counts are exact in all runs, and
exactly when an empty union shows that the stage is done. DateRange and Spliter are such stages.

**Query 4** (`accounts`, `query4`, `scatter_and_gather`, `pair_splits`, `delta_log`, `heavy_monitor`,
`seal_barrier`, `pair_counts`, `query4_pipeline`, `query4_execution`, `query4_end_to_end`,
`query4_example`). Sharding, adjacency with its delta log, the exchange of heavy accounts, the pruned
and bounded cross product, accumulation, threshold and union, composed from transaction batches to the
result set, against the centralised result of `scripts/verify_output.py`. The end-to-end theorem is
about histories: replicas that die while streaming and stream again, accumulators and a join that are
runs of the exactly-once process.

**Join, codecs, election** (`join`, `codec`, `count_codecs`, `strings_order`, `positions`, `sums`, `election`).
What loops filter and cut is said by positions of the input, what travels by its bytes.

## Assumptions

- `hash16` is injective on the preimages in use, which it can be for up to 256^16 of them, and none of the ids in
  use is zero; the log checksum is any deterministic 32-bit function.
- A returned write is durable; rename, remove and truncate are atomic; no I/O error other than a crash.
- Queues are FIFO per sender where the exchange of heavy accounts and the delta log say so; elsewhere any order is allowed.
- Snapshots restore to what was captured (JSON is the identity on the modelled fields), and a handler
  that returns an error has not changed the worker's state.
- One consumer goroutine per worker; a control message is handled as one step, except that `EofDisorder`
  looks at cleanups in the middle of a batch.
- Generations stay below 2^64 and one delta below 4 GiB. Client ids are not reused and are valid file names.
- The stable period of the election starts with accurate alive flags, and has no loss and no older announcement.

## Where the code does less than it says

- The comment at `src/common/eof/sync_controller.go:356-358` takes an empty union of reports for proof that an earlier
  leader finished. That holds exactly if some replica has a saved batch on record when the EOF comes
  (`EofDone.EmptyMeansDoneIff`). Otherwise an EOF that overtakes a batch still in another replica's hands, or that
  crashes take off the record, is acknowledged and none is ever emitted. With a single replica this takes a crash and a
  broker that then delivers the EOF in front of the batches it puts back into the same queue; the model lets batches and
  EOF come in any order. `handleEOFMessage` calls `Flush` in front of `SyncEof` (`src/workers/filter/date_range.go:224`),
  which the model has as separate snapshot steps; in the failing run the leader has nothing on record to save by then.
- `cleanupClientState` may run while the data consumer is inside a batch. For a stage of two replicas or more that is
  told the exact total, counts are exact in all runs exactly if it does not, or nothing is derived
  (`EofDisorder.ExactIffOrderly`). A single replica that leads once is safe from it unless it also passes a flush
  signal on (`EofAlone.AloneIsExact`, `EofDisorder.FlushLosesCounts`, `EofDisorder.AlwaysExactIff`).
- The gateway's flush signal carries -1 under all its keys, but a worker that gave up sends -1 under the nil key alone.
  A stage that reads another key takes that for a total of zero and emits at once, with counts that need not be exact
  (`EofDisorder.GaveUpIsHarmlessIff`, `EofDisorder.GaveUpMisread`).
- A pair split over two flushes of one replica reuses its message id and loses the second count. No order of the loops
  does that exactly if there are fewer pairs than the buffer holds, or no pair has two bridges there
  (`PairSplits.NothingLostIff`).
- Account ids without `::` do not make pair keys unique: a source id must also not end in `:`
  (`Accounts.KeyInjectiveIff`, `Accounts.KeyCollides`, `Accounts.KeysDistinctIff`).
- A message of client `uuid.Nil`, an id the gateway never gives, may be acked before it is durable
  (`Deliveries.NilClientAckNotDurable`).

## Model

| member | source | states |
|---|---|---|
| Checkpoint.CheckpointAtomicity | src/common/checkpoint/coordinator.go:107-217 | stop any run of checkpoint and recovery steps anywhere, with any operation torn, also inside recovery: recovering gives state, eof and all deltas of one and the same generation, the one of the last complete log record, and never an error |
| Checkpoint.ReachableInvariant | src/common/checkpoint/coordinator.go:107-217 | in every reachable state a staged file that carries the committed generation is complete, which is what lets Promote read nine bytes only |
| Checkpoint.CommitsSurvive | src/common/checkpoint/coordinator.go:107-217 | a commit, once made, is part of every later state of the run |
| Checkpoint.PromoteCleans | src/common/checkpoint/store.go:149-176 | promoting at the committed generation ends with the last committed snapshot in place and nothing staged under its generation, from either form a crash can leave |
| Checkpoint.RecoverGivesCommitted | src/common/checkpoint/coordinator.go:161-217 | on any disk a crash can leave, recovery returns exactly the memory the commit history stands for |
| Checkpoint.LogRead | src/common/checkpoint/store.go:315-380 | a possibly torn log reads back as all commits and nothing else, its maximum generation is their number, and truncating makes it whole |
| Checkpoint.WholeCheckpoint | src/common/checkpoint/coordinator.go:107-159 | an undisturbed checkpoint is a run of the step system that ends where the five disk operations in order end, one commit richer |
| Checkpoint.WholeRecovery | src/common/checkpoint/coordinator.go:161-203 | an undisturbed recovery is a run of the step system that ends on the disk Recover computes |
| Store.LogScan | src/common/checkpoint/store.go:315-380 | for any records and any strict prefix of one more encoded record behind them, scanning finds exactly the records and the cut falls exactly behind the last complete one |
| Store.AppendAfterTruncate | src/common/checkpoint/store.go:280-380 | after the cut, one more appended record is scanned together with all earlier ones |
| Store.RecordRoundTripIff | src/common/checkpoint/store.go:403-432 | a record survives its framing exactly when its length fits 32 and its generation 64 bits |
| Store.TornRejected | src/common/checkpoint/store.go:414-432 | a record cut short of its last byte is never accepted, for any checksum |
| Store.RecordAcceptedIff | src/common/checkpoint/store.go:414-432 | exactly what is accepted as a record: complete length, generation and checksum fields, as many bytes as the length says, and the right checksum |
| Store.CutStops | src/common/checkpoint/store.go:348-380 | the cut falls behind the last record in front of the first uncommitted generation or of the torn tail |
| Store.OverwriteAccepted | src/common/checkpoint/store.go:230-260 | a slot file is accepted exactly if its header is complete and of this version, with the error for either failure |
| Store.OverwriteRoundTrip | src/common/checkpoint/store.go:222-260 | a slot file decodes to what was staged, with the generation modulo 2^64 |
| Store.TornStageHeader | src/common/checkpoint/store.go:136-147 | a torn stage shows no generation or the one being staged |
| Store.EncodeRecordBuffer | src/common/checkpoint/store.go:403-412 | the buffer filled in place holds the framed record |
| Store.EncodeOverwriteBuffer | src/common/checkpoint/store.go:222-228 | the buffer filled in place holds version, generation and data |
| Store.LoadLog | src/common/checkpoint/store.go:315-346 | the offset loop returns the scanned records and their largest generation |
| Store.FindCut | src/common/checkpoint/store.go:348-380 | the offset loop stops in front of the first torn record or uncommitted generation |
| Bytes.BigEndianRead | src/common/checkpoint/store.go:403-412 | reading a big-endian number back gives it modulo its width |
| FileStores.Stores.Stage | src/common/checkpoint/store.go:136-147 | refuses an invalid key; otherwise exactly the staged file of that kind and key changes |
| FileStores.Stores.Promote | src/common/checkpoint/store.go:149-176 | renames a staged file of the committed generation over the slot, removes any other |
| FileStores.Stores.LoadSnapshot | src/common/checkpoint/store.go:178-195 | the committed data, nothing, or the decoding error |
| FileStores.Stores.Append | src/common/checkpoint/store.go:280-313 | the log grows by one framed record |
| FileStores.Stores.LoadRecords | src/common/checkpoint/store.go:315-346 | all complete records and the largest generation |
| FileStores.Stores.Truncate | src/common/checkpoint/store.go:348-380 | the log is cut behind the last committed complete record |
| FileStores.Stores.Delete | src/common/checkpoint/coordinator.go:219-239 | all files of the key are gone, no other changes |
| Coordinators.Coordinator.Track | src/common/checkpoint/coordinator.go:67-81 | collects the ack, marks any client but uuid.Nil dirty, and when the interval is full checkpoints every dirty client and fires all collected acks, each once, in order |
| Coordinators.Coordinator.Flush | src/common/checkpoint/coordinator.go:83-101 | the journal goes on with one checkpoint of every dirty client, in some order, and only then with each collected ack, in order |
| Coordinators.Coordinator.SaveClient | src/common/checkpoint/coordinator.go:103-159 | runs the five disk operations of a checkpoint at the next generation, empties the client's pending ids, touches no other client |
| Coordinators.Coordinator.StageSnapshots | src/common/checkpoint/coordinator.go:107-130 | stages both configured snapshots of that client |
| Coordinators.Coordinator.PromoteSnapshots | src/common/checkpoint/coordinator.go:144-159 | promotes both configured slots at the committed generation |
| Coordinators.Coordinator.RestoreOverwrite | src/common/checkpoint/coordinator.go:205-217 | settles the slot, then restores what it holds, nothing, or fails with the decoding error |
| Coordinators.Coordinator.RecoverClient | src/common/checkpoint/coordinator.go:161-203 | memory and disk of the client become what Recover computes from its files; other clients are untouched |
| Coordinators.Coordinator.Recover | src/common/checkpoint/coordinator.go:161-203 | succeeds exactly when every client's files can be recovered, and then every client is restored from them, in whatever order |
| Coordinators.Coordinator.Delete | src/common/checkpoint/coordinator.go:219-239 | forgets files, generation and dirty mark of one client only |
| Dedup.DrainReplay | src/common/messaging/dedup.go:55-86 | a drained delta replays as the ids that were pending |
| Dedup.DrainAt | src/common/messaging/dedup.go:55-64 | a delta holds the pending ids in order, sixteen bytes each |
| Dedup.ReplayAt | src/common/messaging/dedup.go:72-86 | the i-th id of a delta is its i-th sixteen bytes |
| Dedup.DedupState.MarkSeen | src/common/messaging/dedup.go:32-45 | the id becomes seen, and pending exactly if it was not seen before |
| Dedup.DedupState.DrainClient | src/common/messaging/dedup.go:55-64 | the pending ids' bytes in order |
| Dedup.DedupState.CommitDrained | src/common/messaging/dedup.go:66-70 | that client's pending ids are dropped, no other's |
| Dedup.DedupState.ReplayClient | src/common/messaging/dedup.go:72-86 | the seen set grows by every complete id of the record |
| Dedup.DedupState.Forget | src/common/messaging/dedup.go:47-53 | nothing of the client is left |
| Publisher.Consumer.Dispatch | src/common/messaging/publisher.go:62-84 | decode, handler lookup, duplicate check, handle, mark, in this order: the outcome and the whole new state for every case |
| Publisher.RedeliveryHarmlessIff | src/common/messaging/publisher.go:62-84 | a second delivery changes nothing, for every handler and state, exactly when the message carries an id |
| ExactlyOnce.SaveIsSteps | src/common/checkpoint/coordinator.go:103-159 | the coordinator's SaveClient is one undisturbed run of the step system: it ends with the files, the generation and the pending ids the class method promises |
| Flushes.FlushIsSteps | src/common/checkpoint/coordinator.go:83-101 | the coordinator's Flush is a run of the process's steps: it shows exactly the journal the class method promises, leaves the clients as it promises, and fires the collected acks in order |
| ExactlyOnce.AdvanceSaveKeeps | src/common/checkpoint/coordinator.go:107-159 | a checkpoint step keeps memory, commits and bookkeeping in step; behind the append everything handled is durable |
| ExactlyOnce.DieKeeps | src/common/checkpoint/coordinator.go:107-159 | a crash at any point, also in a torn append that wrote its whole record, leaves commits that stand for a prefix of the handled messages |
| ExactlyOnce.RestoredIsFold | src/common/checkpoint/coordinator.go:161-217 | restoring from the commits gives the fold of the messages they stand for and exactly their ids |
| Deliveries.Reachable | src/common/checkpoint/coordinator.go:67-101 | the invariant of all clients and all acks holds in every reachable state of a process with deliveries, duplicates, flushes, crashes and recoveries |
| Deliveries.ExactlyOnceEffect | src/common/messaging/publisher.go:62-84 | a live client's state is the fold of its handler over delivered messages without a repeated id, and its seen set is exactly their ids |
| Deliveries.ArrivalIsHandled | src/common/messaging/publisher.go:62-84 | an arrival with a new id, or none, is handled, and marked if its handler succeeds; one whose id is marked changes nothing but is acked |
| Deliveries.RestartIsExactlyOnce | src/common/checkpoint/coordinator.go:161-217 | what a restart would find after a crash right now is the fold of a prefix that contains everything committed, with exactly its ids as seen |
| Deliveries.AckSafety | src/common/checkpoint/coordinator.go:67-101 | an ack that fired is of a message, with or without an id, that the commits on disk stand for, or of a repetition of one, then and in every later state, and its id is in the durable log |
| Deliveries.EachAckOnce | src/common/checkpoint/coordinator.go:67-101 | no two acks that fired or may still fire belong to the same delivery |
| Deliveries.NilClientAckNotDurable | src/common/checkpoint/coordinator.go:67-101 | for uuid.Nil, which no client is given, the guarantee fails: a run in which a handled message of that client is acked and not on disk |
| Deliveries.AllAckedIsCrashFree | src/common/messaging/publisher.go:62-84 | once all input of a client is acked and its handlers commute, disk and live memory equal handling the input once, in order, without crashes |
| Deliveries.AllSeenIsCrashFree | src/common/messaging/publisher.go:62-84 | already when memory has marked all input of a client as seen, acked or not, it holds what handling the input once, in order, without crashes gives |
| CrashFreeResults.ServedIsSum | src/workers/aggregator/scattergather.go:170-206 | what an adding worker holds when its last EOF comes is the sum over its input, each message once, whatever crashes, repetitions and restarts came before |
| CrashFreeResults.AccumulatorIsCrashFree | src/workers/aggregator/scattergather.go:170-206 | instance, with the upstream EOFs up to the last: after any crashes the accumulator's count of a pair is the sum over the input, each message once, and the EOF counter the number of EOFs |
| CrashFreeResults.AccountsAreCrashFree | src/workers/join/query4.go:98-136 | instance, with the upstream EOFs up to the last: after any crashes the result set is the union of the input's account lists, and the EOF counter the number of EOFs |
| EofBarrier.CountedIsExact | src/common/eof/sync_controller.go:349-380 | in every run of a safe stage, whenever a leader counts it complete, all outputs of all batches are published and the emitted EOF is exact key by key |
| EofBarrier.CountedHasAll | src/common/eof/sync_controller.go:349-380 | when a leader that waits for at least what the stage was sent counts, the union of the reported ids is all batches that are not empty, each with its size, and nothing else |
| EofBarrier.Agreement | src/common/eof/sync_controller.go:349-380 | two counted EOFs of one client and a safe stage are equal, whichever replicas led |
| EofBarrier.EnoughIsSafe | src/common/eof/sync_controller.go:162-203 | a stage is safe that forgets clients between batches only and reads -1 or at least what it was sent |
| EofBarrier.MergedIsExact | src/common/eof/sync_controller.go:509-557 | once the received total is one that no batch with outputs can be missing from, the union of truthful reports lacks none of them, all their outputs are published, and the merged counts are exact |
| EofBarrier.NextStageExpects | src/common/eof/sync_controller.go:163-166 | the count the next stage reads from the EOF is the number of transactions sent on its key |
| EofBarrier.Reachable | src/common/eof/sync_controller.go:256-395 | in every run every report, also a stale or restored one, is right about what it counts, and complete about the outputs of each batch it counts if clients are forgotten between batches only |
| EofRounds.RoundsAreBounded | src/common/eof/sync_controller.go:284-395 | each SyncEof leads to at most one leader flush, with a retry limit to at most one amount round more than the limit, and to at most one ack, of its own EOF |
| EofRounds.AckedWhenForgotten | src/common/eof/sync_controller.go:436-449 | the EOF of a leadership is acknowledged in just the step in which its live replica forgets the client: not before, not if it crashes first, not if another EOF takes its place |
| EofRounds.UnionUnique | src/common/eof/sync_controller.go:509-557 | reports that agree have one union, whatever order nodes and ids are visited in |
| EofRounds.NilKeyConservation | src/common/eof/sync_controller.go:144-159 | whatever the replicas report and in whatever order it is merged, the merged total of the nil key is the sum of those of the other keys plus what was sent with no key |
| EofRounds.KeyedConservation | src/common/eof/sync_controller.go:534-566 | for workers that send with keys only it is the sum of the others |
| EofDone.EmptyMeansDoneIff | src/common/eof/sync_controller.go:349-385 | for any number of replicas, in all runs from before the first EOF: the empty-union branch is taken behind an emission only, exactly if by then some replica has a batch on record and saved, or no EOF announces anything |
| EofDone.SavedBeforeEof | src/common/eof/sync_controller.go:356-385 | in a whole run the branch is taken behind an emission if some replica had a saved batch when the first EOF came |
| EofDone.QuietBeforeEof | src/common/eof/sync_controller.go:162-203 | before an EOF is handled no control message exists and nothing is saved that is not on record |
| EofDone.FindingNothingEnds | src/common/eof/sync_controller.go:381-386 | in that branch the leader forgets the client and emits nothing |
| EofDisorder.AlwaysExactIff | src/common/eof/sync_controller.go:162-203 | for every stage and every number of replicas: the emitted counts are exact in all runs in which no replica leads twice exactly if nothing is derived, or every EOF is -1, or announces more than there is, or a total that no batch with outputs can be missing from, to a stage that forgets clients between batches only, or is one replica that is sent no flush signal |
| EofDisorder.FlushLosesCounts | src/common/eof/sync_controller.go:162-203 | for every stage, also of one replica, that may forget a client in the middle of a batch and is sent a flush signal as well: a run that ends with an EOF that lacks an output |
| EofAlone.AloneIsExact | src/common/eof/sync_controller.go:436-449 | in a run of a single replica that is told enough, never to flush, and leads once, a counted EOF is exact and all outputs are published, also if cleanups may come in the middle of a batch |
| EofDisorder.ExactIffOrderly | src/common/eof/sync_controller.go:436-449 | for every stage of two replicas or more that is told the exact total: counts are exact in all runs exactly if a client is forgotten only between batches, or nothing is derived |
| EofDisorder.DisorderLosesCounts | src/common/eof/sync_controller.go:436-449 | for every such stage with an output, a run in which no replica leads twice, where a cleanup in the middle of a batch makes the next leader emit an EOF that lacks it |
| EofDisorder.TooLittle | src/common/eof/sync_controller.go:349-380 | for every total that leaves room for a batch with outputs, a run that ends with an EOF without it |
| EofDisorder.GaveUpIsHarmlessIff | src/workers/filter/date_range.go:119-127 | the -1 of a worker that gave up, under the nil key alone, leaves the next stage's counts exact in all runs exactly if that stage reads the nil key, or derives nothing |
| EofDisorder.GaveUpMisread | src/common/eof/sync_controller.go:162-203 | a stage that reads another key takes it for a total of zero: a run in which it leads at once and emits an EOF that is not exact |
| EofRuns.ReachesBehind | src/workers/filter/date_range.go:187-214 | publishing and recording the outputs of a batch in any order, and the batch last, is a run of the barrier's handler steps |
| EofRuns.AsksAll | src/common/eof/sync_controller.go:205-311 | a leader that asks reaches, from every state, the point where all but its own answer are in |
| EofControl.MergeReceived | src/common/eof/sync_controller.go:509-519 | the total of some union of the reports, for any iteration order |
| EofControl.MergeSent | src/common/eof/sync_controller.go:534-557 | per key the total of some union of the reports |
| EofControl.SyncedAcks | src/common/eof/sync_controller.go:162-203 | an EOF passed on is acknowledged once, behind one that was led with; an EOF that is led with is not yet |
| EofControl.HandledAcks | src/common/eof/sync_controller.go:225-449 | a control message fires the held ack exactly if it makes the leader forget the client, and a flush or give-up calls its callback |
| EofControl.SyncEofController.MessageReceived | src/common/eof/sync_controller.go:128-138 | records the count under its id for that client only |
| EofControl.SyncEofController.MessageSentWithKey | src/common/eof/sync_controller.go:144-160 | records the count under its key and under the nil key |
| EofControl.SyncEofController.SyncEof | src/common/eof/sync_controller.go:162-203 | passes a flush signal on, calls onLeaderFlush and acks it once, or becomes leader with that total and ack, and asks for amounts |
| EofControl.SyncEofController.ProcessAmountRequest | src/common/eof/sync_controller.go:256-282 | answers with the tally as it stands |
| EofControl.SyncEofController.ProcessAmountResponse | src/common/eof/sync_controller.go:284-311 | ignored unless leading; the last missing response triggers the check |
| EofControl.SyncEofController.CheckTotalAndFlush | src/common/eof/sync_controller.go:349-395 | complete, already done, or retry, by the merged totals |
| EofControl.SyncEofController.RetryAmountRequest | src/common/eof/sync_controller.go:313-347 | forgets the responses and asks again, or gives up behind the limit |
| EofControl.SyncEofController.CleanupClientState | src/common/eof/sync_controller.go:436-449 | forgets the client and fires just the ack of the EOF this replica was leading with, if it was |
| EofControl.SyncEofController.HandleControlMessage | src/common/eof/sync_controller.go:225-254 | each control message does what its type says; one without client is refused |
| EofControl.SyncEofController.RestoreClient | src/common/eof/sync_controller.go:469-487 | the tally is restored, leadership is not |
| KeyedWorkers.NamingExists | src/common/protocol/msgid.go:47-60 | ids that tell the messages of given splits apart exist, whatever is split, if there are fewer messages than ids |
| KeyedWorkers.SomeDateRange | src/workers/filter/date_range.go:187-214 | some DateRange stage with a message to derive has such ids, so that the theorems on it are about something |
| KeyedWorkers.WorkIsDerived | src/common/protocol/msgid.go:47-60 | by ids injective on the messages in use the messages a DateRange or Spliter derives are distinct, have non-empty parents and are not empty, as the barrier assumes |
| KeyedWorkers.DateRangeIsSafe | src/workers/filter/date_range.go:187-214 | so DateRange stages are safe, whatever they filter |
| KeyedWorkers.SpliterIsSafe | src/workers/router/spliter.go:162-215 | and so are Spliter stages, however accounts are sharded |
| KeyedWorkers.HandlerIsSteps | src/workers/filter/date_range.go:187-214 | the handler's messages and tally are those of one run of the barrier's steps Take, Publish, RecordSent, RecordReceived |
| KeyedWorkers.SpliterIsSteps | src/workers/router/spliter.go:162-215 | the same of the Spliter, for every order its map of buckets may be walked in |
| KeyedWorkers.KeyedWorker.HandleDateRange | src/workers/filter/date_range.go:187-214 | under tx.usd one message with exactly the dollar transactions of the range, in order, under tx.non-usd one with the others, no empty message and none under another key; tallies exactly these |
| KeyedWorkers.DateSplitIsGood | src/workers/filter/date_range.go:152-214 | the two messages are made of the batch and carry distinct discriminators |
| KeyedWorkers.DateBucketsSplit | src/workers/filter/date_range.go:152-214 | the messages of a batch, said of its transactions alone: per key the subsequence of those with its currency and a timestamp within the range |
| KeyedWorkers.SplitBucketsSplit | src/workers/router/spliter.go:162-215 | the messages of a batch, said of its transactions alone: per role and shard the subsequence of those whose account of the role the shard owns |
| KeyedWorkers.KeyedWorker.HandleSplit | src/workers/router/spliter.go:179-215 | succeeds exactly when every transaction has both accounts, and then sends each role and shard it has transactions for one message, to the key of the shard, with exactly these, in order, and tallies it; otherwise sends nothing |
| KeyedWorkers.KeyedWorker.Send | src/workers/router/spliter.go:147-160 | publishes under the derived id, then records the count |
| KeyedWorkers.SplitIsSharding | src/workers/router/spliter.go:179-205 | a bucket holds exactly the transactions whose account of its role the shard owns |
| KeyedWorkers.SplitIsGood | src/workers/router/spliter.go:147-160 | the buckets of a batch have distinct discriminators and are not empty |
| MsgIds.DeriveInjective | src/common/protocol/msgid.go:47-60 | parent, discriminator and index can be read off the preimage |
| MsgIds.SourceLayout | src/common/protocol/msgid.go:31-42 | a source preimage is client, stream and number |
| MsgIds.DeriveLayout | src/common/protocol/msgid.go:47-60 | a derived preimage is parent, discriminator behind its length, and index |
| MsgIds.StageLayout | src/common/protocol/msgid.go:69-85 | a stage preimage is client, stage and discriminator behind their lengths, and index |
| MsgIds.HashExistsIff | src/common/protocol/msgid.go:31-85 | a hash to 16 bytes that tells a set of preimages apart exists exactly if there are no more of them than ids |
| MsgIds.StageInjective | src/common/protocol/msgid.go:69-85 | if the hash tells their two preimages apart, two stage ids are equal only for the same client, stage, discriminator and index |
| MsgIds.SourceInjective | src/common/protocol/msgid.go:31-42 | if the hash tells their two preimages apart, two source ids are equal only for the same client, stream and number |
| MsgIds.DeriveIndexCollidesIff | src/common/protocol/msgid.go:47-60 | if the hash tells their two preimages apart, two indices give the same id exactly when they agree modulo 2^32 |
| Query4EndToEnd.ResultIsReference | scripts/verify_output.py:132-163 | from any batches of transactions between readable accounts, split by account over any number of replicas: in every history of deliveries, repetitions, deaths and restarts, with replicas that stream in several tries and split no pair over two flushes, accumulators that emit again, a filter that repeats itself, and a join, the set the join holds when its last EOF comes is the centralised account set |
| Query4EndToEnd.SaidIsComplete | src/workers/aggregator/scatter_and_gather.go:494-554 | whatever an interrupted try to stream has published, the completed one publishes too, with the same count, so that repeated ids repeat the message |
| Query4EndToEnd.BehindIsExecuted | src/workers/aggregator/scattergather.go:170-188 | behind deduplication a history is an execution in which each pair message of each replica is added once |
| Query4EndToEnd.HeldIsAdded | src/workers/aggregator/scattergather.go:190-206 | every state in which an accumulator may emit holds the sums of the messages routed to it, each once |
| Query4EndToEnd.SameBatches | src/workers/aggregator/scattergather.go:207-257 | an accumulator that dies while emitting emits the same batches again |
| Query4Example.SomeHistory | src/workers/aggregator/scatter_and_gather.go:494-568 | a history with one bridged pair whose result is not empty, so that the theorem on histories is about something |
| Query4Execution.SelectedIsReference | scripts/verify_output.py:132-163 | behind deduplication: what the threshold lets through of the accumulators' batches is the centralised account set |
| Query4Execution.ExecutionIsPipeline | src/workers/aggregator/scatter_and_gather.go:254-568 | what the stages did in an execution, as their own theorems describe it, gives complete shards, streamed counts and accumulated sums |
| Query4Execution.ShardEdges | src/workers/router/spliter.go:162-205 | over all batches, a replica is sent exactly the edges whose source, as scatter, or sink, as gather, it owns |
| Query4Execution.BucketIsSent | src/workers/router/spliter.go:162-215 | what Spliter publishes under the key of a replica and a role is the bucket the replica is taken to receive |
| Query4Pipeline.PipelineRefinesReference | scripts/verify_output.py:132-163 | for complete shards and flushes that split no pair, the union of what the accumulators select is the centralised account set |
| Query4.ReferenceIff | scripts/verify_output.py:132-163 | the reference set is exactly the ends of pairs with at least threshold bridges |
| Query4.PruneSound | src/workers/aggregator/scatter_and_gather.go:527-568 | a pair with at least t bridges has a source of out-degree and a sink of in-degree at least t |
| Query4.ShardsPartitionBridges | src/workers/router/spliter.go:162-205 | every bridge of a pair is counted by its owner and by no other replica |
| Query4Pipeline.SealedIsGlobal | src/workers/aggregator/scatter_and_gather.go:556-568 | the union of the replicas' local heavy accounts is the set of globally heavy accounts |
| Query4Pipeline.ReplicaCounts | src/workers/aggregator/scatter_and_gather.go:513-554 | a replica counts for a heavy pair the bridges it owns and for any other pair of accounts nothing |
| Query4Pipeline.SummedCounts | src/workers/aggregator/scatter_and_gather.go:513-554 | summed over the replicas a heavy pair has its bridges, all of them, once |
| PairSplits.NothingLostIff | src/workers/aggregator/scatter_and_gather.go:494-554 | whatever order the loops take, deduplication by pair id loses no count, exactly if there are fewer pairs than the buffer holds or no pair has two bridges on the replica |
| PairSplits.SomeWalkLoses | src/workers/aggregator/scatter_and_gather.go:513-554 | otherwise there is an order of the loops that splits a pair and loses a count |
| PairSplits.DedupLosesNothingIff | src/workers/aggregator/scatter_and_gather.go:494-511 | it loses nothing of given flushes exactly when no pair is in two of them |
| PairSplits.FewPairsOneFlush | src/workers/aggregator/scatter_and_gather.go:513-554 | with fewer distinct pairs than the buffer holds there is at most one flush |
| Query4Pipeline.DeliveriesAccumulate | src/workers/aggregator/scattergather.go:170-188 | accumulators that handled, in whatever order, the messages routed to them hold every pair's sum over the replicas |
| Query4Pipeline.ShardFromBatches | src/workers/aggregator/scatter_and_gather.go:415-492 | adjacency built from the batches of the owned edges is the shard's complete adjacency |
| Query4Pipeline.ReadableKeysDistinct | src/common/domain/tx_q4.go:44-46 | pairs of readable accounts have distinct keys, so neither ids nor batch entries collide |
| Query4Pipeline.BatchesSelect | src/workers/filter/scattergather.go:111-142 | what the threshold filter lets through of an accumulator's batches is what the accumulator selects |
| Accounts.AccountRoundTripIff | src/workers/aggregator/scattergather.go:144-147 | an account is recovered from its id exactly when its bank has no dash |
| Accounts.PairText | src/common/domain/tx_q4.go:44-46 | a pair is its source and sink as bank-account, and its key joins both by :: |
| Accounts.KeyInjectiveIff | src/common/domain/tx_q4.go:44-46 | a pair is told by its key from all pairs with proper source ids exactly if its own source id is proper: followed by the separator it has its first separator right there |
| Accounts.KeyCollides | src/common/domain/tx_q4.go:44-46 | every other source id shares its key, with any sink, with a pair whose source id is proper |
| Accounts.KeysDistinctIff | src/common/domain/tx_q4.go:44-46 | a set of source ids gives distinct keys exactly if none of them begins with another one and its separator |
| ScatterAndGather.ClientGraph.Stream | src/workers/aggregator/scatter_and_gather.go:513-554 | the flushes are those of some nested walk of all heavy paths, each once; they sum per pair to its heavy paths, all but the last are full, and expanded bridges are gone from both maps |
| ScatterAndGather.WalkStreams | src/workers/aggregator/scatter_and_gather.go:513-554 | this holds of every walk the loops may take |
| ScatterAndGather.ExpandBridge | src/workers/aggregator/scatter_and_gather.go:527-548 | the two inner loops visit every heavy source with every heavy sink of the bridge once, source by source |
| ScatterAndGather.ClientGraph.FindHeavyAccounts | src/workers/aggregator/scatter_and_gather.go:556-568 | adds exactly the accounts whose degree reaches the threshold |
| ScatterAndGather.ClientGraph.HandleBatch | src/workers/aggregator/scatter_and_gather.go:463-492 | a batch of a known role is added edge by edge, new neighbours also to the pending delta; an unknown role is refused |
| ScatterAndGather.AddedAllAdds | src/workers/aggregator/scatter_and_gather.go:413-461 | a batch adds each of its edges on the side of its role, and to the pending delta of that side what was not known there |
| ScatterAndGather.ClientGraph.Drain | src/workers/aggregator/scatter_and_gather.go:299-315 | returns the pending delta and empties it |
| ScatterAndGather.ClientGraph.Replay | src/workers/aggregator/scatter_and_gather.go:317-371 | adds the delta's neighbours to memory |
| DeltaLog.DoneMeansComplete | src/workers/aggregator/scatter_and_gather.go:254-371 | over all crashes and redeliveries memory is the replayed log and the pending delta until the cross product consumes it, and whoever holds or restores the local-done flag, also after losing an unsaved completion, has the shard's complete adjacency |
| SealBarrier.SealedIsUnion | src/workers/aggregator/heavy_accounts_monitor.go:50-105 | in every reachable state of N replicas a sealed one, in memory or saved, holds exactly the union of all local heavy sets, and is told it is ready at most once between restarts |
| SealBarrier.AllDoneMeansSealed | src/workers/aggregator/heavy_accounts_monitor.go:50-105 | in every reachable state a replica that is not completed, has its local part and has worked off a done marker of every other one is sealed |
| SealBarrier.Reachable | src/workers/aggregator/heavy_accounts_monitor.go:50-105 | what every queue, every exchange state and every snapshot keeps, through duplicates, own echoes, crashes and renewed publications |
| HeavyMonitor.PublishHeavy | src/common/broker/scattergather/accounts_exchange.go:81-93 | all batches strictly before the done marker, carrying exactly the heavy accounts |
| HeavyMonitor.PublishBatches | src/common/broker/scattergather/accounts_exchange.go:95-120 | no empty batch, none larger than 1000, together exactly the set |
| HeavyMonitor.HeavyAccountsMonitor.MergeLocal | src/workers/aggregator/heavy_accounts_monitor.go:50-65 | unless sealed, adds the local sets and notes the local part as done, and seals and answers ready exactly if the peers are enough |
| HeavyMonitor.HeavyAccountsMonitor.RecordHeavyBatch | src/workers/aggregator/heavy_accounts_monitor.go:67-83 | adds a peer's accounts to the side the role names, unless sealed or one's own |
| HeavyMonitor.HeavyAccountsMonitor.Snapshot | src/workers/aggregator/heavy_accounts_monitor.go:140-159 | what is saved of a client is the state that restoring puts back, and nothing for an unknown client |
| HeavyMonitor.HeavyAccountsMonitor.RecordDone | src/workers/aggregator/heavy_accounts_monitor.go:85-97 | unless sealed or oneself, adds exactly that peer, and seals and answers ready exactly if the local part is done and the peers are enough |
| HeavyMonitor.HeavyAccountsMonitor.IsReady | src/workers/aggregator/heavy_accounts_monitor.go:99-105 | seals and answers true exactly if not yet sealed, the local part is done and the peers are enough |
| PairCounts.ScatterGather.HandlePairs | src/workers/aggregator/scattergather.go:170-188 | adds up the pairs of a message |
| PairCounts.AddedPairsSum | src/workers/aggregator/scattergather.go:170-188 | accumulating adds, pair by pair, what the messages say |
| PairCounts.PairsCommute | src/workers/aggregator/scattergather.go:170-188 | two partial counts may arrive in either order |
| PairCounts.ScatterGather.HandleEof | src/workers/aggregator/scattergather.go:190-276 | waits for the last upstream EOF, then emits everything and an EOF that counts the messages sent, and forgets the client; a flush is passed on as -1 and forgets at once |
| PairCounts.ScatterGather.EmitBatches | src/workers/aggregator/scattergather.go:207-257 | emits the accumulator in ascending key order and counts the batches |
| PairCounts.EmitAllCarries | src/workers/aggregator/scattergather.go:239-257 | if keys tell pairs apart, the batches carry every entry with its count, none other, and all but the last are full |
| PairCounts.AllInBatches | src/workers/aggregator/scattergather.go:239-257 | if keys tell pairs apart, the entries leave in order, a thousand to a batch, each with its count and both accounts |
| PairCounts.BatchesReproducible | src/workers/aggregator/scattergather.go:212-218 | accumulators with equal content emit equal batches, so ids by index are reproduced after a restart |
| PairCounts.Threshold | src/workers/filter/scattergather.go:121-139 | one message with both accounts for every entry that reaches the threshold, none else |
| PairCounts.Query4Join.HandleAccounts | src/workers/join/query4.go:98-122 | the set grows by the message's accounts |
| PairCounts.Query4Join.HandleEof | src/workers/join/query4.go:124-184 | with the last upstream EOF, or a flush, the accounts leave in ascending order of their ids, in chunks, and the client is forgotten |
| PairCounts.ChunksReproducible | src/workers/join/query4.go:142-169 | the chunks of one set are the same in every run, so ids by index are reproduced after a restart |
| PairCounts.AllInChunks | src/workers/join/query4.go:151-169 | the accounts leave in order, a thousand to a chunk |
| StringOrder.AscendingUnique | src/workers/aggregator/scattergather.go:212-218 | a set has one listing in ascending key order |
| StringOrder.LessIff | src/workers/filter/date_range.go:152-163 | strings are compared byte by byte: the first difference decides, and a proper prefix comes first |
| Join.InterleavingIndependence | src/workers/join/join.go:198-325 | for every merge of the two streams the output is the same sequence: every batch joined with the complete first-wins table, then the EOF, once |
| Join.MergeIsJoin | src/workers/join/join.go:172-325 | the same said of the messages alone: for every merge, in order, one result for each batch with a transaction of a mentioned bank, with one row for each such transaction, in order, with its bank, account and amount and the name of the first mention of the bank; and then the EOF |
| Join.OneEof | src/workers/join/join.go:279-322 | whatever messages arrive in whatever order, also again, the EOF is emitted at most once, exactly if the client is final |
| Join.FirstMentionWins | src/workers/join/join.go:214-219 | a bank is named as its first mention names it |
| Join.NoEofInResults | src/workers/join/join.go:172-196 | results never contain the terminal EOF |
| Join.Joiner.JoinAndEmit | src/workers/join/join.go:172-196 | one result under the id of the batch, with one row for each transaction of a known bank, in order, that carries its bank, account, amount and the name of the bank; nothing if there is none |
| Join.Joiner.HandleAccountsBatch | src/workers/join/join.go:198-219 | the first name of a bank wins |
| Join.Joiner.HandleAccountsEof | src/workers/join/join.go:223-240 | drains the cache in order, then finalizes if the workers are done |
| Join.Joiner.HandleTransactionBatch | src/workers/join/join.go:252-266 | caches until the table is complete, joins on arrival afterwards |
| Join.Joiner.HandleTransactionsEof | src/workers/join/join.go:268-277 | counts the worker, and finalizes with the last one if the accounts are complete |
| Join.Joiner.FinalizeIfDone | src/workers/join/join.go:289-322 | emits the EOF exactly at the moment both barriers are met and not yet finalized |
| Codec.BatchRoundTripIff | src/common/protocol/codec/codec.go:1011-1065 | a batch decodes to its items and is consumed exactly, exactly when their number fits 32 bits |
| Codec.BatchLayout | src/common/protocol/codec/codec.go:1011-1034 | a batch is the number of items in four bytes, then each item behind its length in two; it fails exactly if some item does not encode or fit |
| Codec.BatchPrefixRejected | src/common/protocol/codec/codec.go:1036-1065 | every strict prefix of a batch is rejected |
| Codec.EncodeBatchLoop | src/common/protocol/codec/codec.go:1011-1034 | the buffer loop computes the framed batch, or fails with the first item that does not encode or fit |
| Codec.TransactionRoundTrip | src/common/protocol/codec/codec.go:312-368 | a transaction is read back and consumed exactly |
| Codec.TransactionLayout | src/common/protocol/codec/codec.go:312-337 | the fields in the order in which they travel |
| Codec.TransactionFitsFrame | src/common/protocol/codec/codec.go:312-337 | a transaction encodes exactly when its strings fit a length byte, and then in at most 2065 bytes |
| Codec.TransactionBatchRoundTrip | src/common/protocol/codec/codec.go:188-237 | any list of encodable transactions makes a batch that gives them back |
| CountCodecs.EofCountsRoundTripIff | src/common/protocol/codec/codec.go:936-994 | EOF counts come back whole, from any order of writing, exactly when their number fits 32 bits |
| CountCodecs.EofCountsDeterministic | src/common/protocol/codec/codec.go:936-955 | the encoding depends on the map alone |
| CountCodecs.EofCountsLayout | src/common/protocol/codec/codec.go:936-955 | the number of entries in four bytes, then each key behind its length and its count in eight bytes |
| CountCodecs.EncodeEofCounts | src/common/protocol/codec/codec.go:936-955 | writes the entries in ascending order of their keys, or fails on a key that is too long |
| CountCodecs.EntriesEncodeIff | src/common/protocol/codec/codec.go:1067-1074 | the counts encode exactly when every key fits its length byte |
| CountCodecs.Int64RoundTrip | src/common/protocol/codec/codec.go:1102-1114 | negative counts survive as two's complement |
| CountCodecs.IdCountsRoundTripIff | src/common/eof/sync_controller.go:568-592 | id counts come back whole, from any iteration order, exactly when all counts fit 32 bits |
| CountCodecs.EncodeIdsAt | src/common/eof/sync_controller.go:568-581 | twenty bytes for each id: itself, then its count |
| CountCodecs.LastRecordWins | src/common/eof/sync_controller.go:583-592 | an id has the count of the last complete record it has |
| CountCodecs.EncodeIdCounts | src/common/eof/sync_controller.go:568-581 | writes every entry once, in some order |
| CountCodecs.DecodeIdCounts | src/common/eof/sync_controller.go:583-592 | the offset loop reads every complete entry, the last one of an id winning |
| CountCodecs.EnvelopeRoundTripIff | src/common/protocol/codec/codec.go:71-94 | an envelope of the current layout comes back whole exactly when its payload length fits 32 bits |
| CountCodecs.SetEnvelopeMsgId | src/common/protocol/codec/codec.go:119-124 | overwrites the id field in place and nothing else; too short a buffer is left alone |
| CountCodecs.StampIsEncode | src/common/protocol/codec/codec.go:119-124 | stamping an encoded envelope equals encoding it with that id |
| Election.CascadeDescends | src/common/bully/bully.go:307-327 | a cascade moves to strictly lower live ids, so its length is bounded by the id it starts at |
| Election.CascadeEnds | src/common/bully/bully.go:307-327 | from every live node a cascade ends, at the lowest live id |
| Election.DeferredIff | src/common/bully/bully.go:307-368 | a node becomes leader instead of deferring exactly when it is the lowest live id |
| Election.OnlyMinimumLeads | src/common/bully/bully.go:140-177 | in a stable period, whose steps are the handlers, a node's leader changes only to the lowest live id, and only that node becomes leader |
| Election.Reachable | src/common/bully/bully.go:140-368 | flags stay accurate, every node knows whether it leads, and only the lowest is ever announced |
| Election.StartedAt | src/common/bully/bully.go:307-327 | a node with accurate flags hands its election to a strictly lower live one, or becomes leader, exactly if it is the lowest |
| Election.MissesElect | src/common/bully/bully.go:278-305 | of the pings a peer misses in a row the third, and no other, takes it for dead and, exactly if it was the leader, starts an election |
| Election.FirstAnswerFirst | src/common/bully/bully.go:307-327 | an election is handed to the first lower peer, in configured order, that is believed alive and answers, if there is one |
| Election.AnnounceKeeps | src/common/bully/bully.go:170-177 | a node that adopts a delivered announcement keeps its flags accurate, knows whether it leads, and is on the lowest id from then on |
| Election.MarkedAccurate | src/common/bully/bully.go:278-305 | a missed ping of a node that does not run makes no flag wrong and starts no election |
| Election.AnnouncedMeansAgreed | src/common/bully/bully.go:356-368 | once the lowest has announced itself and the announcements have arrived, all live nodes agree on it and it alone leads |
| Election.AgreementIsStable | src/common/bully/bully.go:140-177 | agreement on the lowest survives every further step, and no ping starts a new election |
| Election.Bully.StartElection | src/common/bully/bully.go:307-327 | defers to the first lower live peer, in configured order, that answers; else becomes leader |
| Election.Bully.HandlePing | src/common/bully/bully.go:140-160 | revives the sender, answers with the own leader, and elects exactly on a differing claim |
| Election.Bully.HandleElection | src/common/bully/bully.go:162-168 | a higher peer's election is answered and taken over, no other is |
| Election.Bully.HandleCoordinator | src/common/bully/bully.go:170-177 | adopts the announced leader, knows whether it is itself, and keeps accurate flags accurate |
| Election.Bully.MarkPeerDead | src/common/bully/bully.go:278-305 | the third missed ping in a row kills a live peer, and elects exactly if it was the leader |

## Left out

- AMQP, TCP and UDP sockets, docker, HTTP rates, CSV files, configuration, logging, real time: plumbing; delays are nondeterministic steps.
- JSON, SHA-256, CRC-32C and FNV arithmetic: functions of which only the stated assumptions are used.
- Floating-point averages and currency conversion: amounts are opaque eight-byte values.
- I/O errors in the middle of a checkpoint, and a `Flush` on the EOF goroutine at the same time as one on the consumer.
- EOF handlers that call `Flush` inside the handler, before their message is marked as seen: outside the exactly-once theorem, which covers the batch handlers.
- Q5Filter, Converter and ScatterGatherThreshold checkpoint without state, so they are not instances of the exactly-once theorem.
- Cleaner, Router and SyncFilter record the receive before the sends; the exact counts are not claimed for them.
- Log files whose name is not a client id, which `Recover` skips: every key of the model is a client.
- Envelopes of the older layout, which cannot be told apart from the current one in general.
- Account, query-result and heavy-batch item codecs: the same framing with other fields.
- `batch.Buffer`, `messagehandler`, and workers of the other queries: they add only easy members.
- Per-client maps of the Query 4 and join workers: one object models one client; clients do not interact.
- CrashFreeResults.AccumulatorIsCrashFree: covers runs up to the last upstream EOF; what memory holds when that EOF
  is handled, acked or not, is `CrashFreeResults.ServedIsSum`, and that it is emitted alike again after a death is part of
  `Query4EndToEnd.ResultIsReference`. The removal of the client's files behind the emission is not in the runs.
- CrashFreeResults.AccountsAreCrashFree: likewise.
- EofBarrier.CountedIsExact: is stated for safe stages; `EofDisorder.AlwaysExactIff` says of every stage exactly when counts are exact.
- EofBarrier.Agreement: likewise.
- Query4EndToEnd.ResultIsReference: that the last upstream EOF is handled behind the messages it announces is taken
  from queue order; histories end where the join handles its last EOF; flush signals and invalid messages are not in them.
- Election.AgreementIsStable: covers one stable period; crashes and recoveries of nodes start a new one.
