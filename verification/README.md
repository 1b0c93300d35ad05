# A verified model of IndiLog

IndiLog is a distributed shared log for serverless functions, with client libraries on top of it. This
project models the parts of it whose correctness is hard to see from the code, and proves what they are
for. `dafny verify dfyconfig.toml` checks all of it.

## What is modelled

**The object store over the log** (`Logs`, `ObjectSpec`, `LogService`, `Backlog`, `CommitCheck`, `ViewCache`,
`Objects`, `Transactions`, `Environments`). The state of every object is derived from the log; whether a
transaction committed is never stored, only recomputed and memoised in aux data that may vanish. `ObjectSpec`
says what a log means without caches, scans or tags: `Effective` is the outcome of an entry by recursion over
its history, `Replay` the fold of the effective entries of one object. The client code is modelled as it is
(recursive commit checks, cached views, forward and backward syncs, deferred writes) and refines that
meaning. `SharedLog` is the log as one client sees it. Every log operation may be preceded by steps of other
clients: `SharedLog.Interfere` has an empty body, but callers see only its contract, so they hold for any sequence
of such steps. `LogService` proves that every client step meets that contract. Entries carry their author, which
no client code looks at: contracts use it to say which records a call has left in the log, and `Interfere` adds
none of this client's. Failed appends are counted too, so that no call can report a failure it did not have.

**The queue over the log** (`QueueSpec`, `Queues`). Clients share only push and pop records. The two counters a
client keeps are a function of the log and represent an abstract FIFO.

**The index** (`SpaceIndexes`, `IndexContents`, `IndexAnswers`, `Indexes`, `IndexPackages`, `ShardCuts`,
`IndexShards`, `CompleteIndexes`, `Merging`, `ShardedReads`, `ViewWalks`, `Engines`). Index data arrives in any order from replicas, is grouped by
metalog cut and shared out over index shards; queries wait for progress, are merged across shards and
walk down the views. `History` is what the sequencers decided; what an index holds, answers and
reports is always a function of it.

**The shared-memory ring** (`SpscQueues`), as atomic steps of a producer and a consumer in any interleaving.

**The dispatcher** (`Dispatchers`): which worker runs which call, through all events.

Name hashes and the effect of a write operation are arbitrary functions, so names may collide. Sequence
numbers are unbounded naturals below the log's maximum; the 64-bit shift in tags, the 32-bit halves and the
16-bit view part of sequence numbers are modelled. Clocks are parameters: which reads or calls have waited too
long is an arbitrary predicate, and how long a blocking pop goes on is an arbitrary number. The concurrency limit
is a parameter too, and the availability of aux data is nondeterministic.

## What does not hold of the code

- A read passed on to an older view gets an answer if and only if every index it needs there says that its
  view has ended (`ViewWalks.Walk`, which also covers blocking reads). Nothing ever sets the state `finalized()` asks for
  (src/log/log_space_base.cpp:61-98 calls `OnFinalized` without changing the state), so such a read waits forever unless it was
  already waiting when its view ended; `ViewWalks.ReadLeftWaiting` gives an input.
- Every accepted call is in exactly one of pending, running, finished and discarded after an ended call if and
  only if the call was not still pending (`Dispatchers.Dispatcher.OnFuncCallCompleted`). `Dispatchers.EndedWhileWaiting` gives an input.
- A first sync to sequence number 0 leaves an object without a view. So a read in a transaction fails if and only
  if the transaction began at 0 and the object had no view (`Objects.ObjectRef.Get`), which happens to a read-only
  transaction if and only if the log is empty when it begins (`Environments.ReadOnEmptyLog`); a write fails if and only if its own record is number 0 and there was no view.
- `BuildIndexQuery` in src/log/indexer.cpp:455 combines the initial flag with `|` instead of `&`, so every query
  built from a message counts as initial; the queries of the model are built the same way.

## Model

| member | source | states |
|---|---|---|
| Logs.TagsCoverWrites | slib/statestore/txn.go:99-102 | whatever an entry writes, it carries the tag of: a scan by tag misses no write |
| LogService.StepWithinRely | slib/statestore/log.go:188-191 | every append, every store of sound aux data and every loss of aux data keeps the log growing and all aux data sound, and adds no record of a client other than the one that appends |
| LogService.RunWithinRely | slib/statestore/log.go:136-253 | over every run, between any two states the log only grows and every aux value present is sound; that a value is sound when it is stored is the guard of that step, and it is the precondition of SharedLog.SetAuxData, proved at every call, that guarantees it |
| LogService.OthersAppendNothingOfMine | slib/statestore/log.go:380-399 | over any run in which a client appends nothing, whatever the others do, the set of its records stays the same |
| LogService.StoredAuxStaysSound | slib/statestore/log.go:136-253 | an aux value stored at any time of a run still says the truth about the log at every later time |
| LogService.SharedLog.ReadPrev | slib/statestore/log.go:157-157 | returns the last entry at or below a number with the tag, or nothing if there is none; its aux data may be missing but is sound |
| LogService.SharedLog.ReadNext | slib/statestore/log.go:270-270 | returns the first entry at or above a number with the tag, or nothing if there is none |
| LogService.SharedLog.SetAuxData | slib/statestore/log.go:189-191 | storing aux data demands that it is sound, so each caller proves it; afterwards it is there |
| LogService.SharedLog.Append | slib/statestore/log.go:390-399 | adds exactly one record of this client, at the end of the log, with the tags and contents given; or adds none and counts a failure |
| CommitCheck.CheckTxnCommitResult | slib/statestore/log.go:136-193 | terminates and returns true exactly when no effective entry with overlapping write set lies between begin and commit, whatever memoised results are present or missing, whatever hashes collide and whatever is appended meanwhile; memoises that very result unless it was there or aux data is disabled |
| CommitCheck.CheckConflicts | slib/statestore/log.go:148-187 | searching each distinct tag of the write set once decides the outcome |
| CommitCheck.SearchConflict | slib/statestore/log.go:155-182 | the backward scan of one tag either proves that tag clear down to the begin record or proves the transaction ineffective |
| CommitCheck.ClearedTagsDecide | slib/statestore/log.go:149-187 | tags cleared down to the begin record imply that the transaction takes effect, although tags are hashes of names |
| ViewCache.LoadedViewIsReplay | slib/statestore/log.go:195-230 | a cached view, if present in sound aux data, is the replay of the object through that very entry, and is missing exactly when the cache says so |
| ViewCache.ViewAuxSound | slib/statestore/log.go:232-253 | storing the replay as a cached view keeps aux data sound for plain writes and for commit records, whose other fields it keeps |
| ViewCache.CacheObjectView | slib/statestore/log.go:232-253 | may be called with exactly the replay through the entry; a view that was not cached can be loaded with these contents afterwards, unless aux data is disabled |
| Objects.ObjectRef.SyncToForward | slib/statestore/log.go:259-300 | ends with the fold of the effective entries below the tail and the number after the last one that touches the object; the fatal check cannot fire |
| Objects.ObjectRef.SyncToBackward | slib/statestore/log.go:302-378 | ends with the same view as the forward sync from the same start, with any mix of cached views; leaves no view if and only if there was none and the tail is 0; the fatal check cannot fire |
| Objects.ObjectRef.Collect | slib/statestore/log.go:319-350 | the backward scan collects exactly the effective entries of the object above its base, which is a cached view equal to the replay or the current view |
| Objects.ObjectRef.ApplyCollected | slib/statestore/log.go:363-376 | applying the collected entries oldest first gives the synced view |
| Objects.ObjectRef.EnsureView | slib/statestore/object.go:54-64 | a view that exists is kept; a first view is the replay at the transaction's begin or, outside a transaction, of the whole log as it stands at some moment of the call; none is made exactly when the transaction began at number 0 |
| Objects.ObjectRef.Sync | slib/statestore/object.go:66-71 | the view becomes the replay of the log to an end no earlier than at the call |
| Objects.ObjectRef.Get | slib/statestore/object.go:73-88 | in a transaction returns the replay of the log below the transaction id; outside one, a first read returns the replay of the whole log as it stands at some moment of the call, and a later read the contents of the view there is; fails if and only if no view can be made |
| Objects.ObjectRef.AppendNormalOpLog | slib/statestore/log.go:380-399 | appends one plain record with the operations at the end of the log, the only new record of this client, or fails and leaves none |
| Objects.ObjectRef.DoWriteOp | slib/statestore/op.go:125-158 | buffers in a multi context or a transaction; otherwise the client has exactly one new record, the result is that of running the operation on the replay of everything before that very record, and the view left is the replay through it |
| Objects.ObjectRef.MultiBegin | slib/statestore/op.go:76-87 | starts with an empty batch |
| Objects.ObjectRef.MultiAbort | slib/statestore/op.go:89-94 | drops the batch |
| Objects.ObjectRef.MultiCommit | slib/statestore/op.go:96-123 | appends the whole batch as the one new record of this client; the results are those of running it at that record's place in the log, and the view left is the replay through it; an empty batch changes nothing |
| Objects.RunOpsIsApplyOps | slib/statestore/op.go:114-121 | running a batch for its results leaves the contents that replaying its record gives |
| Environments.Env.Object | slib/statestore/object.go:26-44 | one handle per name, opened in the current transaction when new |
| Environments.Env.Get | slib/statestore/object.go:73-88 | a read in a transaction is the replay of the log below the transaction id, whichever object and whenever, and leaves the environment ready for the next; it fails if and only if that id is 0 and the object had no view; outside a transaction a first read is the replay of the whole log at some moment of the call, and a later one what the handle has |
| Environments.ReadAll | slib/statestore/object.go:73-88 | any number of reads of any objects in one transaction agree with one snapshot of the log as it was below the transaction id before them, whatever is appended in between; they fail if and only if that id is 0 and one of the objects had no view |
| Environments.Env.TxnCommit | slib/statestore/txn.go:79-116 | appends the commit record with the buffered operations as the one new record of this client and returns its declarative outcome; if committed, every object written had the same contents at begin and just before the commit record |
| Environments.CreateTxnEnv | slib/statestore/txn.go:19-32 | the transaction id is the number of a begin record that this client has just appended, and that is its only new record |
| Environments.CreateReadOnlyTxnEnv | slib/statestore/txn.go:34-51 | the transaction id is the number after the last entry, 0 for an empty log |
| Environments.ReadOnEmptyLog | slib/statestore/txn.go:34-51 | the first read of a read-only transaction fails if and only if the log was empty when it began |
| Transactions.SnapshotStillCurrent | slib/statestore/log.go:148-187 | a committed transaction's write set has the same replayed state at its begin and just before its commit record, so it is serialised there |
| Transactions.FirstCommitterWins | slib/statestore/log.go:148-187 | of two committed transactions with overlapping write sets, the second began after the first committed |
| Transactions.ReplayProjects | slib/statestore/log.go:302-378 | the tag-filtered replay of one object is the projection of a whole-log replay that applies each committed transaction atomically |
| Transactions.ForwardValidation | slib/statestore/log.go:136-193 | the recursive backward definition of the outcome agrees with a one-pass forward validation that keeps a last-writer number per object |
| QueueSpec.Representation | slib/sync/queue.go:127-146 | the pushes between the two counters are exactly the abstract queue, for every history |
| QueueSpec.EmptinessTest | slib/sync/queue.go:103-105 | comparing the counters tells exactly whether the abstract queue is empty |
| QueueSpec.FirstInFirstOut | slib/sync/queue.go:107-146 | conservation: all pushes, in order, are what the pops took followed by what is still queued |
| QueueSpec.PopsTakePushesInOrder | slib/sync/queue.go:272-291 | two successful pops take different pushes, the earlier pop the earlier push |
| QueueSpec.CallsTakeDifferentPushes | slib/sync/queue.go:272-334 | any two successful pop calls of any clients return different pushes, and whoever's record is first in the log gets the earlier push |
| QueueSpec.ServedStays | slib/sync/queue.go:272-334 | what a finished pop call got stays right however the log grows, so calls that ended at different times can be compared |
| QueueSpec.StaysEmpty | slib/sync/queue.go:304-321 | an empty abstract queue stays empty until the next push of this queue |
| Queues.Queue.constructor | slib/sync/queue.go:69-78 | a handle with counters at 0 is valid for any log |
| Queues.NewQueue | slib/sync/queue.go:69-83 | a new handle has the counters determined by the log as it stands at some moment of the call |
| Queues.Queue.FindNext | slib/sync/queue.go:107-125 | returns the first push of this very queue in the window, skipping colliding queues, or nothing if there is none |
| Queues.Queue.ApplyLog | slib/sync/queue.go:127-146 | moves the counters to the value the log determines after the record; the fatal check cannot fire |
| Queues.Queue.SyncToBackward | slib/sync/queue.go:156-206 | the counters become the value determined by the log below the tail alone, with any mix of aux data and colliding names |
| Queues.Queue.SyncToForward | slib/sync/queue.go:208-238 | the same value as the backward sync |
| Queues.Queue.IsEmpty | slib/sync/queue.go:103-105 | true if and only if the abstract queue below the handle's position is empty |
| Queues.Queue.Push | slib/sync/queue.go:85-101 | refuses the empty payload and otherwise appends one push record, the only new record of this client, unless the append fails |
| Queues.Queue.AppendPopLogAndSync | slib/sync/queue.go:244-259 | appends a pop record, the only new record of this client, and brings the counters to the state just before that very record |
| Queues.Queue.Pop | slib/sync/queue.go:272-291 | returns exactly what the abstract queue dequeues at the place of this call's own and only pop record, which is appended only after the queue has held something; or empty without a record only if the queue was empty at some moment during the call |
| Queues.Queue.PopBlocking | slib/sync/queue.go:295-334 | the pop records of the call are exactly those listed and, if it succeeds, one more; each was appended only after the queue has held something, each listed one found it empty at its own place and took nothing, and the payload is what the abstract queue dequeues at the last; it gives up only with one such record for each round, or if a wait for a push was in vain, and then the queue was empty at that moment of the call |
| Queues.Queue.AwaitPush | slib/sync/queue.go:304-321 | the blocking reads skip pushes of colliding queues and end with a push of this queue, or with a read that finds none, and then the queue is still empty |
| SpaceIndexes.Add | src/log/index.cpp:23-33 | adding the greatest record keeps, for every tag, a sorted list of exactly the records the tag selects, and the shard of each |
| SpaceIndexes.FindPrevIn | src/log/index.cpp:96-117 | the binary search returns what looking at every element would: the greatest not above the bound |
| SpaceIndexes.FindNextIn | src/log/index.cpp:119-136 | the binary search returns the least element not below the bound |
| SpaceIndexes.FindPrev | src/log/index.cpp:52-72 | the nearest record at or below the bound that the tag selects, with its shard |
| SpaceIndexes.FindNext | src/log/index.cpp:74-94 | the nearest record at or above the bound that the tag selects, with its shard |
| Indexes.Index.Search | src/log/index.cpp:331-348 | the nearest record among those of the query's user log space and tag, also when that log space has no index |
| Indexes.Index.ProcessQuery | src/log/index.cpp:232-329 | answers this query from the nearest record as the direction demands, except a blocking read, which is kept if and only if its own view has nothing for it |
| Indexes.Index.MakeQuery | src/log/index.cpp:138-168 | answers a fresh query if and only if the index has made the progress it asks for, otherwise inserts it behind those that need no more; a passed-on query waits unless the view has ended |
| Indexes.Index.TakeQuery | src/log/index.cpp:138-182 | taking a query adds exactly that query to those waiting, blocking or answered; every other query is there as often as before |
| Indexes.Index.DrainPending | src/log/index_complete.cpp:91-99 | takes from the front exactly the waiting queries that progress has made due; the new results answer these very queries in order, except the blocking reads among them that find nothing, which are kept in order |
| Indexes.Index.RetryBlocking | src/log/index_complete.cpp:76-90 | the new results answer, in order, the very reads that were blocking, except those kept; a read is kept if and only if its view still has nothing for it and it has not waited too long |
| Indexes.Index.AnswerDue | src/log/index_complete.cpp:76-99 | afterwards no query waits for progress that was made and no read blocks on a record the index holds; no read is given up before it has waited too long; every query is waiting, blocking or answered exactly as often as before |
| Indexes.Index.OnFinalized | src/log/index.cpp:195-203 | takes every waiting query, and the new results answer these very queries in order, except blocking reads that find nothing, which are kept |
| IndexAnswers.HandledTimes | src/log/index_complete.cpp:76-99 | queries handled this way are conserved: each occurs among blocking reads and results as often as before plus as often as it was handled |
| IndexAnswers.NoneGivenUpTwice | src/log/index_shard.cpp:60-74 | when records arrive in several steps, a read that all of them leave without a match and that never waited too long is still blocking |
| Indexes.Index.PollQueryResults | src/log/index.cpp:170-182 | hands out all results and keeps none |
| IndexPackages.Receive | src/log/index_shard.cpp:14-37 | takes in exactly the records of a package at or above a position, with tags cut out of the flat array, in any order and any number of times; duplicates agree |
| ShardCuts.RelevantIsOwn | src/log/indexer.cpp:194-194 | the filter on the metalog position lets through exactly the cuts i+1, i+1+n, ... of shard i |
| ShardCuts.CutSplits | src/log/index_shard.cpp:45-58 | when all productive storage shards have reported on the next own cut, the stored records below its end are exactly those of that cut, and all others lie beyond the next position |
| ShardCuts.ApplyCut | src/log/index_shard.cpp:46-58 | moving those records into the index leaves it with exactly the own cuts up to the next position |
| ShardCuts.LeftAfterCut | src/log/index_shard.cpp:46-58 | what is left is exactly what the shard must keep at its next position |
| ShardCuts.WhenComplete | src/log/index_shard.cpp:130-153 | comparing counts tells exactly whether every productive storage shard has reported |
| ShardCuts.OrderDoesNotMatter | src/log/index_shard.cpp:39-87 | how far a shard is, and what it remembers, depends only on the set of packages that arrived |
| ShardCuts.LastAppliedIs | src/log/index_shard.cpp:155-167 | the reported number is the last own cut applied, or 0 |
| IndexShards.IndexShard.constructor | src/log/index_shard.cpp:6-10 | starts at position i, before its first cut i+1, holding nothing |
| IndexShards.IndexShard.CheckIfNewIndexData | src/log/index_shard.cpp:89-128 | remembers who reported on each cut ahead; a package is new if and only if it adds a storage shard to a cut ahead or is the first about it |
| IndexShards.IndexShard.ProvideIndexData | src/log/index_shard.cpp:14-37 | what is stored is exactly the records of the cuts ahead whose storage shards have reported |
| IndexShards.IndexShard.TryCompleteIndexUpdates | src/log/index_shard.cpp:130-153 | moves past the next own cut if and only if every productive storage shard has reported on it |
| IndexShards.IndexShard.AdvanceIndexProgress | src/log/index_shard.cpp:39-87 | afterwards the index holds exactly its own cuts up to its position, each once, and has applied every cut it could; no read is left blocking on a record it holds, and none was given up early; each new result answers a due query from what the shard held at some own position passed; every query is waiting, blocking or answered exactly as often as before |
| IndexShards.IndexShard.IndexMetalogProgress | src/log/index_shard.cpp:155-167 | reports the last own cut applied, or 0 |
| IndexShards.IndexShard.MakeQuery | src/log/index.cpp:138-168 | this very query is answered from what the shard holds, or waits, and no other query is lost or made up |
| IndexShards.AnswersAtOnce | src/log/index.cpp:138-151 | a fresh query is answered at once if and only if its progress is of an earlier view or the shard has applied all its own cuts up to the position the query asks for |
| IndexShards.OnRecvNewIndexData | src/log/indexer.cpp:190-208 | takes in exactly the packages of a message that describe own cuts, and hands out only justified results |
| CompleteIndexes.IndexComplete.constructor | src/log/index_complete.cpp:6-7 | starts empty at position 0 |
| CompleteIndexes.IndexComplete.OnMetaLogApplied | src/log/index.cpp:184-193 | queues the cut that ends at the sum of start and deltas |
| CompleteIndexes.IndexComplete.ProvideIndexData | src/log/index_complete.cpp:11-48 | keeps what is new at or above the indexed position; afterwards everything below the received position is there and that position itself is not; the agreement checks cannot fail |
| CompleteIndexes.IndexComplete.AdvanceIndexProgress | src/log/index_complete.cpp:50-100 | applies every cut that is completely received; the index holds exactly the records below its position, and the check that positions grow cannot fail; no read is left blocking on a record it holds, and none is given up early; new results answer due queries from them; every query is waiting, blocking or answered exactly as often as before |
| CompleteIndexes.IndexComplete.MakeQuery | src/log/index.cpp:138-168 | this very query is answered from exactly the records below the indexed position, or waits, and no other query is lost or made up |
| Merging.MergeIsBest | src/log/aggregating.cpp:28-57 | the merged answer is one of the answers, and no shard found anything nearer to the bound |
| Merging.ArrivalOrderDoesNotMatter | src/log/aggregating.cpp:18-69 | any order and repetition of the same answers merges to the same state and sequence number |
| Merging.EngineIndexReadOp.Aggregate | src/log/aggregating.cpp:18-69 | keeps, per query, the merge and the nodes of the answers so far; completes exactly when the last shard has answered and then forgets the query |
| Merging.ExactlyOneAnswer | src/log/indexer.cpp:300-350 | exactly one message answers a read: from the point-hit shard if there is one, else the merger's nearest record, else the failure because all are empty |
| Merging.Indexer.ProcessIndexResult | src/log/indexer.cpp:300-315 | forwards at once if and only if it is a point hit, then passes the answer to the merger or merges it itself |
| Merging.Indexer.HandleSlaveResult | src/log/indexer.cpp:336-350 | merges an answer of another node |
| Merging.Indexer.AggregateIndexResult | src/log/indexer.cpp:317-334 | keeps every read in order: nothing is sent before the last answer, and then exactly what the merged answer demands, however the answers to many reads interleave |
| Merging.ReadAnsweredOnce | src/log/indexer.cpp:300-350 | over any run of n index nodes and a merger with interleaved answers in any order, a read that every node has answered has led to exactly one message, counted over what all the nodes forwarded and what the merger sent, with the right outcome |
| Merging.Indexer.NothingSentBefore | src/log/indexer.cpp:308-314 | while a shard's answer is missing the merger has sent nothing for the read |
| ShardedReads.ReadNextIsExact | src/log/aggregating.cpp:49-57 | a forward read with progress p returns exactly the nearest match among the first p cuts of the current view and what the shards hold of older views, if there is one, however far ahead the shards are and however many views each of them walked through |
| ShardedReads.ReadPrevIsRecent | src/log/aggregating.cpp:40-48 | a backward read with progress p returns a match, and never one older than any match of the first p cuts or of what the shards hold of older views, also when some shards have no match of their own and pass the read on |
| ShardedReads.EmptyIsEmpty | src/log/aggregating.cpp:31-39 | if the merged answer is empty, neither the first p cuts nor what the shards hold of older views has a match |
| ShardedReads.ReadEndToEnd | src/log/indexer.cpp:300-350 | over any run of the index nodes and the merger, once all shards have answered a read, each after any walk down its views, exactly one message was sent under the read's client data, and it is about this read; a forward read goes to exactly the nearest match it is about and a backward read to one at least as recent; a failure is sent only if no shard held any match |
| ShardedReads.OnePointHit | src/log/index_dto.cpp:72-77 | at most one shard has a point hit, over all views, because each record lies in the cuts of one shard |
| ShardedReads.ShardResults | src/log/index.cpp:138-168 | every result a shard hands out, final or passed on, answers the query it is about from the own cuts up to a position that the query allows |
| ShardedReads.ShardWalk | src/log/indexer.cpp:352-378 | the results that the shards of one view after another hand out for a read form a walk down the views, begun where the read's progress is met |
| ShardedReads.MergedIsNearest | src/log/aggregating.cpp:18-69 | over all shards and all their views, the merged answer is a match some shard held and none held a nearer one; it is empty only if none held any |
| ShardedReads.OlderViewsInFull | src/log/index_shard.cpp:39-87 | once all shards have every cut of an older view, every match in that view is among what they hold |
| ViewWalks.StepOfWalk | src/log/index.cpp:245-306 | one view's answer either passes the best candidate so far on to the next older view, which the read needs, or is right for all views |
| ViewWalks.WalkConcludes | src/log/index.cpp:245-306 | however many views a read walks through, its last result is the nearest match over all views, or empty because there is none; it has the client data and merging node of the read and reports the progress of the first view |
| ViewWalks.Ask | src/log/indexer.cpp:370-374 | a query is answered if and only if it is fresh or the index says its view has ended, and it is no blocking read without a match; otherwise this very query stays there |
| ViewWalks.Walk | src/log/indexer.cpp:352-378 | the walk terminates; its answer is the nearest match over all views, or empty because there is none; it belongs to the read and reports the progress of the current view; there is no answer if and only if it is a blocking read without a match in its own, current view, or some older index the read needs does not say its view has ended |
| ViewWalks.ReadLeftWaiting | src/log/index.cpp:160-166 | an input for which the walk yields no answer although a candidate exists |
| Engines.Engine.OnNewExternalFuncCall | src/log/engine_base.cpp:127-138 | a call from outside has seen nothing |
| Engines.Engine.OnNewInternalFuncCall | src/log/engine_base.cpp:140-154 | a child call has seen what its parent had seen |
| Engines.Engine.OnFuncCallCompleted | src/log/engine_base.cpp:156-163 | the call is forgotten, the others are unchanged |
| Engines.Engine.OnMessageFromFuncWorker | src/log/engine_base.cpp:218-302 | an operation carries the log space and progress of its call; an unknown call is refused and changes nothing |
| Engines.Engine.FinishLocalOpWithResponse | src/log/engine_base.cpp:347-356 | the call has now seen the larger of what it had seen and what the operation saw, and its progress value rises exactly so; nothing else changes |
| Engines.Engine.FinishRead | src/log/engine_base.cpp:347-356 | monotonic reads: the read was evaluated on every record that was there for any read its call, or the parent before spawning it, had finished when it was issued, whichever index replica answered |
| Engines.Engine.FinishAppend | src/log/log_space.cpp:228-228 | after an append ends, the call has seen the cut of its record, so later reads include it |
| Engines.ProgressIsMet | src/log/index.cpp:138-168 | an index that may answer a query has applied all the cuts the query's progress stands for |
| Engines.AnswersAtOnce | src/log/index.cpp:138-151 | a fresh query is answered at once if and only if the index has applied all the cuts that its progress stands for |
| Engines.CompleteIndexEvaluates | src/log/index.cpp:350-379 | the progress in a result of the complete index stands for exactly the cuts it was evaluated on |
| SpscQueues.SpscQueue.constructor | src/ipc/spsc_queue-inl.h:25-57 | an empty ring with both positions at 0 |
| SpscQueues.SpscQueue.BeginPush | src/ipc/spsc_queue-inl.h:60-66 | takes up a message |
| SpscQueues.SpscQueue.LoadHead | src/ipc/spsc_queue-inl.h:67-78 | gives up if and only if the ring is full at this moment; wakes the consumer if and only if it sleeps and was not woken before |
| SpscQueues.SpscQueue.StoreCell | src/ipc/spsc_queue-inl.h:79-79 | no unread cell changes |
| SpscQueues.SpscQueue.StoreTail | src/ipc/spsc_queue-inl.h:80-82 | the message is pushed |
| SpscQueues.SpscQueue.BeginPop | src/ipc/spsc_queue-inl.h:96-99 | remembers the position without the sleep bit |
| SpscQueues.SpscQueue.ClearSleep | src/ipc/spsc_queue-inl.h:100-102 | clears the sleep bit and leaves the position |
| SpscQueues.SpscQueue.LoadTail | src/ipc/spsc_queue-inl.h:104-106 | gives up if and only if the ring is empty at this moment |
| SpscQueues.SpscQueue.LoadCell | src/ipc/spsc_queue-inl.h:108-112 | reads the oldest message not yet popped |
| SpscQueues.SpscQueue.StoreHead | src/ipc/spsc_queue-inl.h:113-115 | the oldest unread message is popped |
| SpscQueues.SpscQueue.ConsumerEnterSleep | src/ipc/spsc_queue-inl.h:120-124 | sets the sleep bit and leaves the position |
| SpscQueues.SpscQueue.InOrder | src/ipc/spsc_queue-inl.h:59-124 | in every reachable state popped is a prefix of pushed and at most the size less one are in flight |
| SpscQueues.SpscQueue.Run | src/ipc/spsc_queue-inl.h:59-124 | every interleaving of the steps of both sides keeps the ring right, so what was popped is a prefix of what was pushed |
| Dispatchers.Dispatcher.OnFuncWorkerConnected | src/engine/dispatcher.cpp:45-62 | a new worker takes the first pending call that is not dropped, or is listed idle once with nothing left pending; all invariants hold |
| Dispatchers.Dispatcher.OnFuncWorkerDisconnected | src/engine/dispatcher.cpp:64-74 | an idle worker may leave; all invariants hold although the idle list keeps it |
| Dispatchers.Dispatcher.OnNewFuncCall | src/engine/dispatcher.cpp:76-103 | a new call runs at once on the free worker that became idle last, or waits last in line; it waits only if the limit is reached or every worker runs; nothing else changes |
| Dispatchers.Dispatcher.OnFuncCallCompleted | src/engine/dispatcher.cpp:105-152 | assignments and running workers stay inverse, every worker is running or idle once; the freed worker takes the first pending call that is not dropped, or becomes idle with nothing left pending; each call stays in exactly one place if and only if the ended call was not pending; a failed call is handled alike |
| Dispatchers.Dispatcher.FuncWorkerFinished | src/engine/dispatcher.cpp:154-163 | the worker takes the first pending call that is not dropped, exactly those before it being discarded, or becomes idle with nothing left pending |
| Dispatchers.Dispatcher.DispatchPendingFuncCall | src/engine/dispatcher.cpp:165-195 | the worker gets the first pending call that has client 0 or has not waited too long; exactly the calls before it are discarded; none is dispatched only if all pending calls are dropped |
| Dispatchers.Dispatcher.DispatchFuncCall | src/engine/dispatcher.cpp:197-207 | call and worker point at each other; nothing else changes |
| Dispatchers.Dispatcher.PickIdleWorker | src/engine/dispatcher.cpp:209-224 | picks the worker that became idle last of those still connected that run nothing; finds none only if the limit is reached or all workers run |
| Dispatchers.EndedWhileWaiting | src/engine/dispatcher.cpp:116-118 | an input after which a call is both finished and pending |

## Left out

- Errors and timeouts of log reads: a read of the model always answers; only appends may fail.
- `TxnAbort` (slib/statestore/txn.go:53-77): appends one record that no other code looks at.
- JSON, compression and Redis encodings: lossless. Paths inside an object, value types and the single write
  operations of slib/statestore/op.go are one arbitrary function of contents and operation.
- Sharing of mutable contents between a cached view and aux data within one client: contents are values.
- Queues.Queue.PopBlocking: numbers of rounds and reads instead of the clock, and no errors of the blocking read.
- ShardedReads.ReadEndToEnd: one number of index shards for all views, as the controller gives every view the same (src/log/controller.cpp:135).
- Engines.Engine.FinishRead: within one view, as progress of different views is compared by view only.
- Merging.Indexer.AggregateIndexResult: one table of ongoing reads; the code keeps one such table per engine and drops it when the engine registers anew.
- The min-seqnum table of the indexer, the seqnum cache, the local suffix and tag-cache indexes.
- Trimming, storage, sequencers, the controller and the registration of engines.
- Wake-up liveness of the ring: only safety is proved. Memory ordering weaker than the interleaving of atomic steps.
- Requests for new workers, load statistics and the estimate behind the concurrency limit.
- The test against `indexed_seqnum_position_` in src/log/index_shard.cpp:23: a shard never moves that position from 0, so the model passes 0.
- 32-bit overflow of metalog positions, and the debug output of all components.
