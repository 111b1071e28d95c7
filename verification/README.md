# Verified model of the Pulsar C++ client core

This project models the state machines underneath the Apache Pulsar C++ client and proves what they promise,
in Dafny 4.11. `dafny verify dfyconfig.toml` checks all of it.

Concurrent code is modelled as a transition system: a state, one step per atomic operation, critical section
or notification, and theorems over every state that any number of threads can reach by any interleaving. Beside them
stand the sequential meanings: what each call does when its thread runs alone.
Objects that are used under one lock are classes whose methods are proved against a specification. Pure code is
functions with lemmas.

| file | what it models | main results |
|---|---|---|
| `MemoryLimit.dfy`, `MemoryLimitCalls.dfy` | reserving, releasing and closing the memory limiter | no lost wakeup, exact usage, what each call returns |
| `FlowPermits.dfy` | the flow-permit counter with pause and resume | permits conserved, none stuck, sent only at the threshold |
| `BlockingQueue.dfy`, `QueueCalls.dfy` | the bounded queue with two condition variables | sleepers have a reason, first in first out, answers have a reason |
| `Future.dfy`, `FutureCalls.dfy` | promise and future | first completion wins, listeners exactly once and in order |
| `ObjectPool.dfy`, `ObjectPoolSizes.dfy`, `ObjectPoolCalls.dfy` | thread-local and global free lists of the allocator | every block in exactly one place |
| `BitWords.dfy`, `BitSet.dfy` | the word-array bit set | it is a finite set of integers |
| `MessageIds.dfy`, `BatchAcker.dfy` | message id orders, acks within one batch | no ack covers an unacked message |
| `AckCallbacks.dfy`, `AckTracker.dfy`, `AckRuns.dfy`, `AckGroupingTracker.dfy` | grouping of acks and ownership of user callbacks: what calls do to callbacks, the tracker's calls and every run of them, the object | duplicates recognised exactly, callbacks conserved, results right, every ack sent |
| `MapCache.dfy`, `ChunkReassembly.dfy`, `ChunkLifetimes.dfy` | the FIFO map cache and chunk reassembly on it | sound and complete reassembly, exact expiry and eviction |
| `SharedBuffer.dfy`, `Framing.dfy` | byte buffer, cutting incoming bytes into frames | decoding does not depend on segmentation, frame round trip |
| `Commands.dfy`, `MessageBatch.dfy` | SEND frames, batch payloads, send callbacks | batch round trip with matching ids |
| `WriteQueue.dfy` | the outgoing write queue and its reused header buffer | the wire carries the calls in order |
| `PendingRequests.dfy`, `RequestOutcomes.dfy` | the pending-request maps and close | no promise stranded, one outcome each, and the right one |

Six promises turned out to need a condition; each is stated with the exact one, or with what is left.

* A message frame without checksum is cut back correctly if and only if the high half of its metadata size is not
  one of the two magic numbers (`Framing.FrameRoundTrip`, with the input in `Framing.MisreadFrame`).
* A simple frame is used up if and only if nothing follows its command (`Framing.SimpleFrameUsesItsSize`): the code
  advances by the command, not by the declared size.
* Completing a group of ack callbacks calls all of them if and only if no empty callback stands before another one
  (`AckCallbacks.GroupCallsAllIffNoNullBefore`, with a run of the tracker in `AckTracker.EmptyCallbackLosesTheNext`).
* When close has finished, a promise can still be uncompleted, but only one that a call still running holds and
  completes in its next step: a handler that took it out of its map before, or a refused request
  (`PendingRequests.CloseStrandsNothing`, with a run in `PendingRequests.HandlerOutlivesClose`).
* A request whose producer the broker has queued up can still fail with a timeout if and only if it already has, or
  its timer had passed the test for a response and has yet to fail it
  (`PendingRequests.QueuedProducersTimeOutOnlyInARace`, with the run in `PendingRequests.TimerRacesResponse`).
* With a connection every acknowledged entry is sent, but a second ack for an id that still waits is ignored, with
  the chunks that only it lists (`AckRuns.AllAcksAreSent` counts exactly the ids that were new, with a run in
  `AckRuns.ChunksOfASecondAckAreIgnored`).

Conventions. Message bodies in protobuf are byte strings with functions that tell which of them parse. The checksum
is a left fold with an arbitrary step. User callbacks are numbers. What the connection supplier returns, query by
query, is an arbitrary function, and so is the condition of popIf. Timers, spurious wakeups, failing weak
compare-exchanges and the amount a socket read returns are left to chance. Machine integers are written out
where they can wrap around: the memory counter, unsigned frame sizes, 64 bit words.

## Model

| member | source | states |
|---|---|---|
| `MemoryLimitController.NoLostWakeup` | lib/MemoryLimitController.cc:27-84 | in every interleaving a sleeping thread implies that a notify is still to come, or that the controller is open and over its limit; in a closed controller the closing thread itself is about to notify |
| `MemoryLimitController.UsageIsOutstanding` | lib/MemoryLimitController.cc:27-76 | the counter is the sum of outstanding reservations modulo 2^64, never exceeds a positive limit by more than one request, and is exact unless limit plus request overflow |
| `MemoryLimitController.QuietSleepersWaitForMemory` | lib/MemoryLimitController.cc:48-76 | when all other calls have returned, sleepers wait only for memory that is really held, and any release that brings usage to the limit will notify |
| `MemoryLimitController.StepKeepsRelease` | lib/MemoryLimitController.cc:27-76 | no step lets usage fall to the limit under a thread bound to sleep without leaving a notify to come |
| `MemoryLimitController.StepKeepsClose` | lib/MemoryLimitController.cc:48-84 | once the controller is closed nobody goes to sleep, and remaining sleepers are woken by the closer |
| `MemoryLimitController.StepKeepsAccounting` | lib/MemoryLimitController.cc:27-72 | every compare-exchange and fetch_sub keeps the counter equal to the outstanding total |
| `MemoryLimitCalls.ReservationsAreAnswered` | lib/MemoryLimitController.cc:27-76 | in every run each thread's calls return in the order made; the outstanding bytes are those of calls that returned true, and of one about to, less those released; reserveMemory returns false only in a closed controller |
| `MemoryLimitCalls.RefusalsAreOverTheLimit` | lib/MemoryLimitController.cc:32-45 | in every run tryReserveMemory returns false only in a step that reads a usage above a positive limit |
| `MemoryLimitCalls.TryReserveAlone` | lib/MemoryLimitController.cc:27-46 | alone, tryReserveMemory reserves exactly for no bytes or a usage not above a positive limit |
| `MemoryLimitCalls.ReserveAlone` | lib/MemoryLimitController.cc:48-65 | alone, reserveMemory reserves likewise, and otherwise fails in a closed controller and sleeps in an open one |
| `MemoryLimitCalls.WokenAlone` | lib/MemoryLimitController.cc:54-61 | a woken thread tries again under the mutex, with the same three ends |
| `MemoryLimitCalls.ReleaseAlone` | lib/MemoryLimitController.cc:67-76 | alone, releaseMemory gives the bytes back and wakes everyone exactly if usage falls to the limit |
| `MemoryLimitCalls.CloseAlone` | lib/MemoryLimitController.cc:80-84 | alone, close closes the controller and wakes everyone |
| `FlowPermits.PermitsAreConserved` | lib/ConsumerImpl.cc:1153-1162 | in every interleaving FLOW permits, the counter and what calls still hold add up to all deltas; FLOW plus counter alone do so when no call holds any |
| `FlowPermits.NoPermitIsStuck` | lib/ConsumerImpl.cc:1153-1162 | for every threshold, with the listener running, permits at or above it mean that some call will try again; after all calls return none are left, or fewer than the threshold |
| `FlowPermits.StepKeepsNoStuckPermits` | lib/ConsumerImpl.cc:1395-1422 | pausing, resuming and every step of an increase keep it, for every threshold |
| `FlowPermits.FlowNeedsTheThreshold` | lib/ConsumerImpl.cc:1153-1162 | in every run permits are taken and sent only if there were at least the threshold, and only after a test of just these permits while the listener was running |
| `FlowPermits.PauseHolds` | lib/ConsumerImpl.cc:1395-1401 | once paused with no resume on its way, the listener stays paused until somebody asks to resume it |
| `FlowPermits.ResumeTakesEffect` | lib/ConsumerImpl.cc:1403-1422 | a resume makes the listener run unless it is paused again |
| `FlowPermits.CallsAlone` | lib/ConsumerImpl.cc:1153-1162 | alone, an increase sends all permits if there are enough and the listener runs, and keeps all otherwise; a resume sends what has been kept |
| `BlockingQueue.SleepersHaveAReason` | lib/BlockingQueue.h:54-202 | a sleeping consumer implies an empty open queue or a pending notify, a sleeping producer a full open queue or a pending notify, although notifies are sent only on empty-to-nonempty and full-to-nonfull |
| `BlockingQueue.QueueIsFifo` | lib/BlockingQueue.h:54-170 | the queue never exceeds its size; pushes in order are the removals followed by the queue, each value popped or cleared once; without clears pops come in push order |
| `BlockingQueue.NoDeadlock` | lib/BlockingQueue.h:54-95 | producers and consumers are never all asleep, unless the queue has no room at all |
| `BlockingQueue.CloseWakesEveryone` | lib/BlockingQueue.h:197-202 | when a closed queue is quiet nobody is left asleep |
| `BlockingQueue.StepKeepsNoLostWakeup` | lib/BlockingQueue.h:54-202 | every step keeps both no-lost-wakeup invariants |
| `BlockingQueue.BodyKeepsFifo` | lib/BlockingQueue.h:54-170 | each critical section keeps the accounting of values and the bound |
| `QueueCalls.OperationsReturnWhatTheyMoved` | lib/BlockingQueue.h:54-202 | in every run a thread's operations return in the order called; what it put into the queue are its pushes that returned true, what was taken out for it are the values its pops returned |
| `QueueCalls.AnswersHaveAReason` | lib/BlockingQueue.h:54-170 | in every run false is returned only for a closed queue, an empty one at the end of the time, or a value that popIf's condition rejects; a value only from the front of an open queue, and accepted by that condition |
| `QueueCalls.OperationAlone` | lib/BlockingQueue.h:54-202 | alone, each operation, called, woken or timed out, has its sequential meaning: answer, queue, and who is woken |
| `Future.FirstCompletionWins` | lib/Future.h:60-84 | whatever follows, the first completion stays the winner |
| `Future.EveryoneSeesTheWinner` | lib/Future.h:48-93 | every listener call and every get sees the winner's outcome |
| `Future.ListenersRunAtMostOnceInOrder` | lib/Future.h:48-84 | no listener runs twice; queued listeners run in the order they were registered |
| `Future.EveryListenerHasRun` | lib/Future.h:48-84 | in a completed quiet future every listener has run exactly once |
| `Future.GetIsWoken` | lib/Future.h:88-93 | a get sleeps only until the winner has notified |
| `Future.StepKeepsInOnePlace` | lib/Future.h:48-84 | every step moves a listener from one place to one place |
| `FutureCalls.CallsReturnInOrder` | lib/Future.h:48-93 | in every run a thread's calls return in the order made, with at most the last in progress |
| `FutureCalls.OneCompleteReturnsTrue` | lib/Future.h:60-86 | in every run complete returns true for the winner alone, false only if another call has won, and the value everyone sees is one that the winning thread passed to complete |
| `FutureCalls.AddListenerAlone` | lib/Future.h:48-58 | alone, addListener calls the listener with the outcome after the completion, and queues it before |
| `FutureCalls.CompleteAlone` | lib/Future.h:60-86 | alone, the first complete stores the outcome, wakes everyone in get and calls the queued listeners with it in order; a later one changes nothing and returns false |
| `FutureCalls.GetAlone` | lib/Future.h:88-93 | alone, get returns the outcome, or sleeps until there is one |
| `ObjectPool.EachBlockInOnePlace` | lib/ObjectPool.h:56-145 | every allocated block is owned by a caller, in one push, or once in one list, so all lists are disjoint and acyclic |
| `ObjectPool.NeverHandedOutTwice` | lib/ObjectPool.h:56-78 | an allocation hands out a block that nobody owns |
| `ObjectPool.CountersAreLengths` | lib/ObjectPool.h:56-111 | the three counters are the real list lengths and the global pool holds at most MaxSize nodes |
| `ObjectPoolSizes.ListsStayShort` | lib/ObjectPool.h:80-111 | no thread-local or global list ever grows beyond a tenth of MaxSize and one node |
| `ObjectPool.StepKeepsOnePlace` | lib/ObjectPool.h:56-145 | every step, also of users writing into their blocks, keeps each block in one place |
| `ObjectPool.GlobalLists` | lib/ObjectPool.h:56-111 | moving lists between threads and the global pool keeps them well formed and counted |
| `ObjectPoolCalls.AllocateAlone` | lib/ObjectPool.h:56-78 | alone, allocate hands out the first block of the own list, else takes over the newest list of the global pool, and calls operator new only if that gives nothing |
| `ObjectPoolCalls.DeallocateAlone` | lib/ObjectPool.h:80-111 | alone, a returned block becomes the first of the own list; a list at a tenth of MaxSize first goes to the global pool if that has room, and is deleted if not |
| `ObjectPoolCalls.ExitAlone` | lib/ObjectPool.h:113-131 | the exit of a thread deletes the blocks of its list and no others |
| `ObjectPoolCalls.OwnersWriteFreely` | lib/ObjectPool.h:37-40 | the owner of a block may leave anything in its link word without disturbing a list |
| `BitWords.SafeShiftCount` | lib/BitSet.h:162-165 | the recursion ends, and the count is the Euclidean remainder also for negative counts |
| `BitWords.LeadingZeros` | lib/BitSet.h:131-134 | the number of zero bits above the highest set bit of a 64 bit word |
| `BitWords.LeadingZeros32` | lib/BitSet.h:136-158 | the same for 32 bits, by halving |
| `BitSets.BitSet.constructor` | lib/BitSet.h:40 | the new set is empty |
| `BitSets.BitSet.IsEmpty` | lib/BitSet.h:58 | true exactly for the empty set |
| `BitSets.BitSet.Get` | lib/BitSet.h:178-182 | membership |
| `BitSets.BitSet.WordsInUse` | lib/BitSet.h:49-50 | the words from begin to end encode exactly the set |
| `BitSets.BitSet.Set` | lib/BitSet.h:184-212 | adds exactly the range |
| `BitSets.BitSet.ClearRange` | lib/BitSet.h:214-252 | removes exactly the range |
| `BitSets.BitSet.Clear` | lib/BitSet.h:254-265 | removes exactly one element |
| `BitSets.BitSet.ExpandTo` | lib/BitSet.h:104-110 | more words, same set |
| `BitSets.BitSet.RecalculateWordsInUse` | lib/BitSet.h:120-129 | restores that the top word in use is non-zero, same set |
| `BitSets.BitSet.Length` | lib/BitSet.h:112-118 | one more than the greatest element, or 0 |
| `BitSets.SetElements` | lib/BitSet.h:190-211 | the masked words of a range set are the union with the range |
| `BitSets.ClearElements` | lib/BitSet.h:231-249 | the masked words of a range clear are the difference with the range |
| `MessageIds.CompareIsTotalPreorder` | lib/AckGroupingTrackerEnabled.cc:38-46 | the tracker's order is a total preorder |
| `MessageIds.WholeEntryBoundsItsBatch` | lib/MessageIdUtil.h:33-43 | an ack of a whole entry covers exactly the messages up to and in it, one of the previous entry exactly those before it |
| `MessageIds.OrderInOnePartition` | lib/MessageId.cc:132-163 | inside one partition exactly one of less, equal, greater holds; across partitions none may |
| `MessageIds.CompareAgainstLess` | lib/AckGroupingTrackerEnabled.cc:38-46 | the two orders differ exactly inside one entry when one id is for the whole entry |
| `BatchAcker.BatchMessageAcker.constructor` | lib/BatchMessageAcker.h:62-70 | nothing acknowledged yet |
| `BatchAcker.BatchMessageAcker.AckIndividual` | lib/BatchMessageAcker.h:72-76 | true exactly when every message of the batch is now acknowledged |
| `BatchAcker.BatchMessageAcker.AckCumulative` | lib/BatchMessageAcker.h:78-84 | the same for all messages up to the index |
| `BatchAcker.BatchMessageAcker.ShouldAckPreviousMessageId` | lib/BatchMessageAcker.h:41-44 | true for the first caller only |
| `BatchAcker.PrepareIndividualAck` | lib/ConsumerImpl.cc:1261-1280 | which id is released, and when none |
| `BatchAcker.PrepareCumulativeAck` | lib/ConsumerImpl.cc:1282-1297 | which id is released, and when none |
| `BatchAcker.RunAcks` | lib/ConsumerImpl.cc:1261-1297 | over every sequence of acks on a batch the whole entry is released exactly when the acked indices cover it, the previous entry exactly by the first cumulative ack that leaves it uncovered, and no release covers an unacked message |
| `AckTracker.DuplicatesAreExact` | lib/AckGroupingTrackerEnabled.cc:50-62 | in every run exactly the ids at or below some cumulative ack since the last clean, and those waiting to be sent, count as duplicates; for a non-negative ledger nothing else does |
| `AckTracker.CumulativeAcksRise` | lib/AckGroupingTrackerEnabled.cc:93-166 | in every run the cumulative ids among the acks sent strictly increase as long as nothing is cleaned between them |
| `AckTracker.CallbacksAreConserved` | lib/AckGroupingTrackerEnabled.cc:64-154 | in every run each callback is in exactly one place, so it is called at most once, and none is lost unless an empty one was stored |
| `AckTracker.IndividualCallbacksWaitForTheAnswer` | lib/AckGroupingTracker.cc:37-139 | in every run that waits for answers, each call of an individual ack's callback is made by an answer and passes its result on, or by a flush that found no connection and says so; so success is only ever the broker's |
| `AckTracker.SupersededCallbackIsCalledOnce` | lib/AckGroupingTrackerEnabled.cc:93-117 | in every run a newer cumulative ack calls the superseded callback with success, and that is its only call |
| `AckTracker.ConnectedFlush` | lib/AckGroupingTrackerEnabled.cc:129-154 | in every run a flush with a connection sends everything waiting, cumulative ack first, empties the group and calls nobody before the answer |
| `AckTracker.FlushSendsEverything` | lib/AckGroupingTracker.cc:37-139 | what such a flush sends: the cumulative ack, then all pending entries in one ack, or one each in ascending order for old brokers |
| `AckTracker.AscendingListsAll` | lib/AckGroupingTracker.cc:101-111 | the entries are listed each once, smaller ones first |
| `AckTracker.GroupsStaySmall` | lib/AckGroupingTrackerEnabled.cc:72-74 | in every run without empty callbacks fewer ids than a full group are waiting |
| `AckTracker.EmptyCallbackLosesTheNext` | lib/AckGroupingTrackerEnabled.cc:143-153 | a run of two acks, a flush and an answer in which a callback is lost |
| `AckTracker.FlushKeeps` | lib/AckGroupingTrackerEnabled.cc:129-154 | a flush moves every callback and neither duplicates nor drops one |
| `AckTracker.OfferAllMoves` | lib/AckGroupingTracker.cc:90-139 | acknowledging a set moves its callback to a request, a countdown or the calls |
| `AckTracker.FlushRises` | lib/AckGroupingTrackerEnabled.cc:131-139 | a flush keeps the cumulative ids sent ascending |
| `AckRuns.SuccessAtOnce` | lib/AckGroupingTrackerEnabled.cc:64-117 | when nobody waits for the broker, every run calls each callback with success in the step that passes it in, calls nobody in any other step, and loses none |
| `AckRuns.CumulativeCallbacksWait` | lib/AckGroupingTrackerEnabled.cc:93-117 | when answers are waited for, a cumulative ack newer than all since the last clean calls nobody but the one it supersedes and waits in its place; any other one succeeds at once |
| `AckRuns.CleanForgets` | lib/AckGroupingTrackerEnabled.cc:156-166 | a clean forgets every acknowledgement, unless an empty callback throws in its flush: then no cumulative one is forgotten |
| `AckRuns.AllAcksAreSent` | lib/AckGroupingTrackerEnabled.cc:64-154 | in every run that always found a connection, the entries for which an individual ack was sent or waits are exactly those acknowledged, chunks included; after a flush all are sent |
| `AckRuns.CumulativeAcksAreSent` | lib/AckGroupingTrackerEnabled.cc:93-154 | in every run that always found a connection, each cumulative ack is covered by one that was sent or by the one waiting; after a flush none waits |
| `AckRuns.ChunksOfASecondAckAreIgnored` | lib/AckGroupingTrackerEnabled.cc:64-66 | the run in which a second ack for a waiting id, with chunks that the first did not list, is ignored |
| `AckCallbacks.GroupRunsOnLastAck` | lib/AckGroupingTracker.cc:129-138 | the group callback runs exactly at the last answer of its per-id acks |
| `AckCallbacks.AnswerConserves` | lib/AckGroupingTracker.cc:37-139 | an answer moves callbacks to the calls made and neither duplicates nor drops one |
| `AckCallbacks.GroupCallsAllIffNoNullBefore` | lib/AckGroupingTrackerEnabled.cc:144-150 | a group calls all its callbacks in order if and only if no empty one stands before another |
| `AckGroupingTrackers.AckGroupingTracker.IsDuplicate` | lib/AckGroupingTrackerEnabled.cc:50-62 | the method decides what the specification says |
| `AckGroupingTrackers.AckGroupingTracker.AddAcknowledge` | lib/AckGroupingTrackerEnabled.cc:64-75 | the id waits and its callback is stored, or called at once when nobody waits; a full group is flushed |
| `AckGroupingTrackers.AckGroupingTracker.AddAcknowledgeList` | lib/AckGroupingTrackerEnabled.cc:77-91 | the same for a list of ids |
| `AckGroupingTrackers.AckGroupingTracker.AddAcknowledgeCumulative` | lib/AckGroupingTrackerEnabled.cc:93-117 | the greatest id is kept, with its callback if answers are waited for, and the superseded callback is called |
| `AckGroupingTrackers.AckGroupingTracker.KeepCallback` | lib/AckGroupingTrackerEnabled.cc:67-71 | a callback is stored, or called at once when nobody waits for the broker |
| `AckGroupingTrackers.AckGroupingTracker.FlushIfFull` | lib/AckGroupingTrackerEnabled.cc:72-74 | a group that reached its size is flushed |
| `AckGroupingTrackers.AckGroupingTracker.FlushCumulative` | lib/AckGroupingTrackerEnabled.cc:131-139 | exactly the kept id is sent, and its callback moves to the request |
| `AckGroupingTrackers.AckGroupingTracker.Flush` | lib/AckGroupingTrackerEnabled.cc:129-154 | both parts; if an empty callback throws the ids stay, though not their callbacks |
| `AckGroupingTrackers.AckGroupingTracker.FlushAndClean` | lib/AckGroupingTrackerEnabled.cc:156-166 | a flush, after which nothing counts as acknowledged unless it threw |
| `AckGroupingTrackers.AckGroupingTracker.SendAck` | lib/AckGroupingTracker.cc:37-75 | the ack is sent and the callback is a request's listener, or it is called at once without connection or without answers |
| `AckGroupingTrackers.AckGroupingTracker.SendPending` | lib/AckGroupingTracker.cc:90-139 | one ack for exactly the pending entries, or one each with a shared countdown |
| `AckGroupingTrackers.Expand` | lib/AckGroupingTracker.cc:101-111 | exactly the entries of the ids, all chunks of chunked ones included |
| `AckGroupingTrackers.AckGroupingTracker.SendEach` | lib/AckGroupingTracker.cc:135-137 | every entry is sent, in ascending order |
| `AckGroupingTrackers.AckGroupingTracker.Invoke` | lib/AckGroupingTracker.cc:130-134 | a per-id ack calls its group only when it takes the countdown to zero |
| `AckGroupingTrackers.AckGroupingTracker.CallAll` | lib/AckGroupingTrackerEnabled.cc:146-150 | the loop calls the callbacks in order until an empty one throws |
| `AckGroupingTrackers.AckGroupingTracker.CompleteRequest` | lib/AckGroupingTracker.cc:61-70 | an answer calls the listener of its request |
| `AckGroupingTrackers.AckGroupingTracker.Play` | lib/AckGroupingTrackerEnabled.cc:50-166 | every run of the object is a run of the specification, so all of the above holds of it |
| `MapCaches.MapCache.PutIfAbsent` | lib/MapCache.h:51-59 | the value is added as the newest, or the key was there and nothing changes |
| `MapCaches.MapCache.RemoveOldestValues` | lib/MapCache.h:61-74 | exactly the given number of oldest entries is removed, oldest first |
| `MapCaches.MapCache.RemoveOldestValuesIf` | lib/MapCache.h:76-91 | it ends, and removes exactly the longest oldest run that satisfies the condition |
| `MapCaches.MapCache.Remove` | lib/MapCache.h:93-99 | one key goes, all others stay in order |
| `MapCaches.MapCache.RemoveKeyFromKeys` | lib/MapCache.h:111-118 | exactly one key leaves the queue |
| `MapCaches.DropOldestKeepsTheRest` | lib/MapCache.h:61-74 | dropping keeps exactly the later keys, in order, with their values |
| `MapCaches.MatchingIsLongest` | lib/MapCache.h:76-91 | the run removed satisfies the condition and the entry after it does not |
| `MapCaches.OldestInOrder` | lib/MapCache.h:61-74 | the removed entries are those of the first keys, in order |
| `MapCaches.RemoveKeyCutsOut` | lib/MapCache.h:111-118 | the other keys keep their order |
| `MapCaches.RemoveConsistent` | lib/MapCache.h:93-118 | after a removal the key queue lists exactly the map's keys, without duplicates |
| `MapCaches.PutConsistent` | lib/MapCache.h:51-59 | the same after an insertion |
| `ChunkReassembly.DeliveriesAreWholeMessages` | lib/ConsumerImpl.cc:458-537 | in every run mixing uuids, evictions and expiries, a delivered payload is the concatenation of the last n arrivals of its uuid, chunks 0 to n-1 in order and within the declared size, with their ids in the same order |
| `ChunkReassembly.WholeMessagesAreDelivered` | lib/ConsumerImpl.cc:458-537 | an uncached uuid whose n chunks arrive in order, within the declared size and without eviction or expiry, is delivered at the n-th |
| `ChunkReassembly.PendingMessagesAreBounded` | lib/ConsumerImpl.cc:480-492 | the cache never exceeds a positive limit |
| `ChunkReassembly.MakeRoomFits` | lib/ConsumerImpl.cc:481-489 | eviction takes the oldest contexts, keeps the newer ones in order, and takes no more than one new context needs |
| `ChunkReassembly.OthersUntouched` | lib/ConsumerImpl.cc:458-537 | an event for one uuid leaves the context of another as it is or evicts it whole |
| `ChunkReassembly.ArrivalStep` | lib/ConsumerImpl.h:271-321 | a context always holds the last arrivals of its uuid, in sequence |
| `ChunkLifetimes.ExpiryIsExact` | lib/ConsumerImpl.cc:437-452 | in every run the timer drops a pending message if and only if its last chunk, and that of every pending message begun before it, came more than the expiry time ago |
| `ChunkLifetimes.EvictionTakesTheOldest` | lib/ConsumerImpl.cc:480-493 | in every run an arrival drops another pending message if and only if it brings the first chunk of a new one while the limit is reached, and this one began first |
| `ChunkLifetimes.TimelyMessagesAreDelivered` | lib/ConsumerImpl.cc:458-546 | completeness told by events alone: chunks in order within the declared size, no timer later than the expiry time after the latest of them, and fewer messages begun since than the limit, are delivered at the last |
| `ChunkLifetimes.StepKeepsHistory` | lib/ConsumerImpl.cc:437-546 | every event keeps contexts with the time of their latest chunk, in the order in which their messages began |
| `ChunkReassembly.ChunkAssembler.ProcessMessageChunk` | lib/ConsumerImpl.cc:458-537 | the method does to the cache what the specification of one arrival says |
| `ChunkReassembly.ChunkAssembler.AdmitChunk` | lib/ConsumerImpl.cc:480-492 | a first chunk gets a fresh context, and just enough of the oldest are evicted for it |
| `ChunkReassembly.ChunkAssembler.CheckExpired` | lib/ConsumerImpl.cc:438-452 | the expiry task drops exactly the longest oldest run of expired contexts |
| `SharedBuffers.IntegersRoundTrip` | lib/SharedBuffer.h:120-144 | integers written are read back, and the first half of a 32 bit integer is its high 16 bits |
| `SharedBuffers.IntegersAreBigEndian` | lib/SharedBuffer.h:120-144 | integers are read most significant byte first, and writing one that was read gives its bytes back |
| `SharedBuffers.SharedBuffer.Write` | lib/SharedBuffer.h:163-174 | appends to the readable bytes and changes nothing else in the storage |
| `SharedBuffers.SharedBuffer.ReadUnsignedInt` | lib/SharedBuffer.h:120-125 | the big-endian integer in front, which is consumed |
| `SharedBuffers.SharedBuffer.ReadUnsignedShort` | lib/SharedBuffer.h:127-132 | the same for 16 bits |
| `SharedBuffers.SharedBuffer.WriteUnsignedInt` | lib/SharedBuffer.h:134-138 | appends the big-endian bytes |
| `SharedBuffers.SharedBuffer.WriteUnsignedShort` | lib/SharedBuffer.h:140-144 | the same for 16 bits |
| `SharedBuffers.SharedBuffer.Consume` | lib/SharedBuffer.h:200-203 | drops readable bytes from the front |
| `SharedBuffers.SharedBuffer.Rollback` | lib/SharedBuffer.h:205-208 | takes a read back |
| `SharedBuffers.SharedBuffer.SetReaderIndex` | lib/SharedBuffer.h:195-198 | moves the read index anywhere in the storage, and nothing else |
| `SharedBuffers.SharedBuffer.SetWriterIndex` | lib/SharedBuffer.h:186-189 | moves the write index anywhere in the storage, and nothing else |
| `SharedBuffers.SharedBuffer.SkipBytes` | lib/SharedBuffer.h:180-183 | what the storage holds becomes readable |
| `SharedBuffers.SharedBuffer.Reset` | lib/SharedBuffer.h:210-213 | nothing is readable and all storage is free |
| `SharedBuffers.SharedBuffer.Slice` | lib/SharedBuffer.h:112-118 | a window of the readable bytes |
| `SharedBuffers.SharedBuffer.Reallocate` | lib/SharedBuffer.h:87-92 | new storage, same readable bytes |
| `Framing.SegmentationDoesNotMatter` | lib/ClientConnection.cc:663-820 | for every stream, well formed or not, and every split into non-empty reads, what is handed on, unread and awaited is that of reading it at once, unless a read leaves the buffered bytes |
| `Framing.FramesSurviveSegmentation` | lib/ClientConnection.cc:663-820 | for every stream of well-formed frames and every split, exactly the frames complete so far are handed on, in order, once each, and no byte is skipped or read twice |
| `Framing.CompleteIsLargest` | lib/ClientConnection.cc:706-732 | the frames counted as complete are the longest run that fits the bytes received |
| `Framing.FrameRoundTrip` | lib/ClientConnection.cc:733-791 | with or without checksum and broker entry, a frame is cut into the same parts and uses exactly its own bytes, if and only if its metadata size is not mistaken for a magic number |
| `Framing.MisreadFrame` | lib/ClientConnection.cc:822-849 | a concrete frame that is misread |
| `Framing.SimpleFrameUsesItsSize` | lib/ClientConnection.cc:733-742 | a simple frame uses the size it declares if and only if nothing follows its command |
| `Framing.DrainContinues` | lib/ClientConnection.cc:704-820 | bytes that arrive later never change what was cut before them |
| `Framing.ChecksumOfPieces` | lib/Commands.cc:257-268 | a checksum continued over the payload is that of metadata and payload together |
| `Framing.ChecksumTakesEveryByte` | lib/ClientConnection.cc:833-836 | the checksum is the previous one for no bytes, and one step more for each byte added |
| `Framing.MalformedFrameIsRejected` | lib/ClientConnection.cc:736-783 | a frame whose command, broker entry or metadata does not parse is rejected |
| `Framing.MalformedFrameClosesTheConnection` | lib/ClientConnection.cc:704-783 | however the bytes are cut into reads, such a frame closes the connection when it is complete and not earlier, with exactly the frames before it handed on |
| `Framing.BrokerEntryIsThere` | lib/ClientConnection.cc:752-769 | a broker entry is read only if it stands in front; reading makes no sense only if a magic number announces one that is not there |
| `Framing.ChecksumIsThere` | lib/ClientConnection.cc:822-850 | the same for the checksum, which is compared with that of exactly the bytes that remain |
| `Framing.ContentIsThere` | lib/ClientConnection.cc:773-790 | metadata and payload are read if and only if they stand in front and the metadata parses |
| `Framing.FrameReader.HandleRead` | lib/ClientConnection.cc:672-702 | one read does what the specification of a read says, and there is always room for what is awaited |
| `Framing.FrameReader.ProcessIncomingBuffer` | lib/ClientConnection.cc:704-820 | handles every complete frame in the buffer and awaits the right number of bytes |
| `Framing.FrameReader.AwaitFrame` | lib/ClientConnection.cc:711-731 | the buffer is enlarged when the missing bytes do not fit |
| `Framing.FrameReader.VerifyChecksum` | lib/ClientConnection.cc:822-849 | validity compares the stored checksum with that of the rest of the frame; without magic number nothing is consumed |
| `Framing.ComputeChecksum` | lib/ClientConnection.cc:833-836 | the loop is the left fold of the checksum step |
| `Framing.FrameReader.ReadBrokerEntry` | lib/ClientConnection.cc:752-769 | an optional broker entry is taken off, and nothing is consumed if there is none |
| `Framing.FrameReader.ReadContent` | lib/ClientConnection.cc:773-789 | metadata by its size, payload by what the frame has left |
| `Framing.FrameReader.ReadFrameSize` | lib/ClientConnection.cc:706-717 | an incomplete frame's size is left unread |
| `Framing.FrameReader.ReadMessage` | lib/ClientConnection.cc:744-791 | splits a message into broker entry, checksum, metadata and payload, or rejects it |
| `Framing.FrameReader.ReadFrame` | lib/ClientConnection.cc:733-794 | cuts one frame, or rejects it, or finds that the code leaves the buffered bytes |
| `Framing.FrameReader.ReadStream` | lib/ClientConnection.cc:663-820 | with a socket that returns any non-empty amount that fits, exactly the complete frames have been handed on |
| `Commands.NewSend` | lib/Commands.cc:194-272 | headers and payload together are the SEND frame; the storage is the given one exactly when the headers fit it |
| `Commands.WriteChecked` | lib/Commands.cc:238-268 | the placeholder ends up holding the checksum of metadata and payload |
| `Commands.PatchChecksum` | lib/Commands.cc:265-267 | only the placeholder changes |
| `Commands.RelayedSendIsReadBack` | lib/Commands.cc:208-268 | a SEND frame relayed with a new command and an optional broker entry reaches the consumer with the same metadata and payload and a valid checksum, if and only if it is unambiguous |
| `Commands.SerializeSingleMessagesToBatchPayload` | lib/Commands.cc:879-905 | the batch bytes, in a buffer of exactly their size, and the last sequence id |
| `Commands.DeserializeSingleMessageInBatch` | lib/Commands.cc:907-934 | the next message and the rest, with its id in the batch |
| `Commands.ReceiveIndividualMessagesFromBatch` | lib/ConsumerImpl.cc:748-752 | the loop cuts all messages of a batch |
| `Commands.BatchRoundTrip` | lib/Commands.cc:879-934 | every list of messages is unpacked as it was packed, with index and size of each |
| `MessageBatches.MessageAndCallbackBatch.Add` | lib/MessageAndCallbackBatch.cc:36-44 | message and callback are appended and the size is the sum of the payloads |
| `MessageBatches.MessageAndCallbackBatch.CreateOpSendMsg` | lib/MessageAndCallbackBatch.cc:46-82 | the operation owns all callbacks; a failed one leaves the batch, one to send empties it |
| `MessageBatches.MessageAndCallbackBatch.Clear` | lib/MessageAndCallbackBatch.cc:84-88 | the batch is empty |
| `MessageBatches.CompleteSendCallbacks` | lib/MessageAndCallbackBatch.cc:90-101 | each callback is called once, the k-th with index k of the entry's id |
| `MessageBatches.CallbackIdsMatchConsumerIds` | lib/MessageAndCallbackBatch.cc:46-101 | the k-th message the consumer cuts has the id given to the k-th send callback and the k-th metadata and payload |
| `WriteQueue.ConnectionWriter.SendCommand` | lib/ClientConnection.cc:1079-1100 | the call is queued behind all earlier ones, or written at once if none is pending |
| `WriteQueue.ConnectionWriter.SendMessage` | lib/ClientConnection.cc:1110-1132 | the same for a message |
| `WriteQueue.ConnectionWriter.Submit` | lib/ClientConnection.cc:1079-1132 | what both do under the lock: queued last if a write is pending, else written or posted at once; one write in flight, in call order |
| `WriteQueue.ConnectionWriter.RunPosted` | lib/ClientConnection.cc:1084-1093 | a first write posted to the strand starts, with nothing else in flight |
| `WriteQueue.ConnectionWriter.StartWrite` | lib/ClientConnection.cc:1102-1127 | the memory handed to the socket holds the item's frame |
| `WriteQueue.ConnectionWriter.Transmit` | lib/ClientConnection.cc:1102-1108 | the bytes the socket takes at any later time are those of the frame |
| `WriteQueue.ConnectionWriter.HandleSend` | lib/ClientConnection.cc:1134-1156 | a completed write is finished and the first queued one starts, a failed one closes |
| `WriteQueue.ConnectionWriter.SendPendingCommands` | lib/ClientConnection.cc:1158-1190 | the queue is non-empty when the counter says so, and no write reads the header buffer when it is rewritten |
| `WriteQueue.ConnectionWriter.Run` | lib/ClientConnection.cc:1079-1190 | in every run of an open connection the counter is queued writes plus the one in flight, and the wire is a prefix of the frames called for, in call order |
| `WriteQueue.ConnectionWriter.RunToIdle` | lib/ClientConnection.cc:1134-1190 | a socket that takes everything gets every frame called for onto the wire, in call order |
| `WriteQueue.ConnectionWriter.WireIsPrefix` | lib/ClientConnection.cc:1079-1190 | the same, as a consequence of the invariant |
| `WriteQueue.ConnectionWriter.IdleMeansSent` | lib/ClientConnection.cc:1158-1190 | with nothing pending, every frame called for is on the wire |
| `PendingRequests.OpenPromisesAreKept` | lib/ClientConnection.cc:1047-2059 | in every run an uncompleted promise is in a map, in a handler or in close |
| `PendingRequests.CloseStrandsNothing` | lib/ClientConnection.cc:1281-1384 | once close has finished the maps are empty, and a promise is uncompleted only if a call still running, a handler or a refused request, holds it and completes it in its next step |
| `PendingRequests.QuietMeansCompleted` | lib/ClientConnection.cc:1281-1384 | with the handlers returned too, every promise ever made is completed |
| `PendingRequests.HandlerOutlivesClose` | lib/ClientConnection.cc:1562-1575 | the concrete run in which a handler's promise outlives close |
| `PendingRequests.ClosedForGood` | lib/ClientConnection.cc:1192-1218 | after close nothing is registered in a map again |
| `PendingRequests.RefusalsFailAtOnce` | lib/ClientConnection.cc:1047-1060 | a request on a closed connection or beyond the lookup limit enters no map and fails with the reason, whatever other threads do |
| `PendingRequests.SingleOutcome` | lib/ClientConnection.cc:1220-1239 | responses, timeouts, removal and close give a promise one outcome |
| `RequestOutcomes.AnswersReachTheirPromise` | lib/ClientConnection.cc:1562-1786 | in every run a response or an error takes the request out of its map, and whatever happens next its handler completes the promise with just this outcome, unless the timer did before |
| `RequestOutcomes.CloseReachesEveryPromise` | lib/ClientConnection.cc:1281-1384 | in every run the close that finds the connection open fails each pending request with its own result, unless a timer did before |
| `RequestOutcomes.CloseRunsToItsEnd` | lib/ClientConnection.cc:1364-1384 | as many steps as it has promises take close to its end, with each that was open completed with its result |
| `RequestOutcomes.OutcomesHaveACause` | lib/ClientConnection.cc:1047-2059 | in every run an outcome that a promise has or is about to get comes from an earlier action: a response or error for its slot, its timer, its removal, the close that found it pending, or the refusal of the request |
| `RequestOutcomes.PromisesKeepTheirSlot` | lib/ClientConnection.cc:1192-1218 | in every run each request brings one promise, which is never pending anywhere but in its own slot |
| `PendingRequests.QueuedProducersTimeOutOnlyInARace` | lib/ClientConnection.cc:1220-1225 | in every reachable state in which the broker has queued up a producer, some continuation fails the request with a timeout if and only if it already failed so, or its timer passed the test for a response before and has yet to fail it |
| `PendingRequests.TimerRacesResponse` | lib/ClientConnection.cc:1719-1727 | the run in which the timer tests, the response arrives, and the timer fails the request, which stays in its map |
| `PendingRequests.StepKeepsKinds` | lib/ClientConnection.cc:1047-2059 | every step keeps promises in maps of their kind, and only requests have got a response while they wait |
| `PendingRequests.LookupsAreCounted` | lib/ClientConnection.cc:1577-1592 | the lookup counter is the number of pending lookups and respects its limit |
| `PendingRequests.PromiseMoves` | lib/ClientConnection.cc:1747-1786 | every step takes an uncompleted promise from one place to another |
| `PendingRequests.OthersKeepOut` | lib/ClientConnection.cc:1047-2059 | no other thread can reach a promise that is in no map and has no timer |
| `PendingRequests.StepKeepsCounted` | lib/ClientConnection.cc:1074-1592 | every step keeps the lookup counter equal to the pending lookups |

## Left out

- Sockets, DNS, TLS, timers, executors and the connect path: a timer firing or a socket progressing is a step that may happen at any time.
- CONNECT and authentication writes, which bypass the write queue: the claims about the queue do not cover them.
- newConsumerStats and its map: on a closed connection it still registers its promise, so the claim about close does not cover it.
- Requests registered under a request id that is still pending: ids come from one counter, and the model requires distinct ones.
- Consumer permits from broker to application: conservation is claimed at the counter only, because some receive paths return without crediting a permit.
- Overflow of the 32 bit permit counter.
- What becomes of the ids of discarded chunks (acknowledged or redelivered, lib/ConsumerImpl.cc:484-488 and 447-450).
- Seek, reconnection, unacked-message tracking, dead letters, and the filters applied to messages of a batch after they are unpacked.
- Ordering of ids across partitions, beyond the lemma that shows how the operators disagree there.
- An empty list passed to addAcknowledgeList: its callback stays stored until a later flush with ids, which the model keeps but does not call progress.
- AckGroupingTrackers.AckGroupingTracker.FlushAndClean: one step; the code drops its locks between flushing and cleaning, and nothing is claimed about calls in between.
- AckGroupingTrackers.AckGroupingTracker.Play: methods are atomic steps; two methods of the tracker inside each other's locks are not interleaved.
- AckGroupingTrackers.AckGroupingTracker.SendAck: the branch that expands a single chunked id is not modelled; the grouping tracker sends individual ids as sets, where it is.
- Encoding an ack with the words of its bit set, compression, encryption, schemas and HTTP lookup.
- ObjectPool.CountersAreLengths: the entries of the global pool are a sequence rather than linked records, the comparison with a tenth of MaxSize is exact rather than in floating point, and allocations of several objects at once are left out.
- ObjectPool.EachBlockInOnePlace: holds until an ObjectPool is destroyed; its destructor (lib/ObjectPool.h:214-223) frees the shared global pool without resetting it, so nothing is claimed of allocations after that.
- BitSets.BitSet.Get: the documented meaning; the code shifts by the raw index, which the language leaves undefined from 64 on, and the model reduces the count as clear does.
- BitSets.BitSet.constructor: only for a positive number of bits; a set built from given words need not have a non-zero top word.
- ChunkReassembly.DeliveriesAreWholeMessages: a run ends at a chunk that does not fit the declared size, where the code has an assertion only.
- SharedBuffers.SharedBuffer.Write: buffers that share storage are modelled only where the SEND headers share the outgoing buffer.
- Framing.SegmentationDoesNotMatter: where sizes point outside the buffered bytes the code has assertions only, and the reader is then lost; nothing is claimed of it afterwards.
- Framing.FrameReader.HandleRead: a frame of 2^32-4 bytes or more, whose buffer size wraps around, also loses the reader.
- Commands.NewSend: frames of 2^31 bytes or more, which overflow the sizes in the code, are excluded.
- Backoff, hashing, key-value encoding, configuration, statistics, interceptors and logging: provable but easy next to the rest.
