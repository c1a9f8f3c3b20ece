# Verification models for the operating-systems labs

The labs hold a handful of real algorithms among many system-call exercises. This project models the
algorithms in Dafny and proves what they promise, over every input, every history of calls or every
interleaving. `dafny verify dfyconfig.toml` checks the whole project.

- **Lock-coupled list** (`LockCoupledList`, `LockCoupledInvariant`, `LockCoupledTheorems`,
  `LockCoupledProgress`). Readers walk a list hand over hand while swappers lock three neighbours and exchange
  two of them. The model has one step per lock, unlock, pointer load and pointer store, any number of threads
  and nodes, and a lock kind that is either a mutex per node or a read/write lock per node. The state carries,
  beside the pointers, the order that the list is in once the stores of a swap are complete. The key fact: a
  node held by somebody else is never among the nodes that move, so what lies before it is frozen. The last
  module says what a thread gets done within a number of its own moves: a pass, a swap that it has drawn.
- **Futex mutex** (`FutexMutex`, `FutexCalls`, `MutexClients`, `MutexTransfers`). Every atomic access,
  field write and futex call of lock and unlock is a step; the kernel's wait set is part of the state.
  `FutexCalls` says what a call has done by the time that it returns. On top run the reader and writer that
  check the order of values, with the queue's bookkeeping in several steps of its own.
- **Queues** (`LinkedQueue`, `MonitorQueue`, `MonitorCalls`). The linked queue is a class over nodes, proved
  against a replay of its call history; the condition-variable queue is a transition system with spurious
  wake-ups, and `MonitorCalls` is about the values that its callers give and get.
- **First-fit heap** (`HeapBlocks`, `HeapArena`). The first module says what allocation and release do to the
  list of blocks and proves the theorems; the second is the allocator on one array of cells, headers and
  payloads mixed, proved to implement the first and to keep live payloads.
- **User-level threads** (`ScanRing`, `ScanStops`, `UThreadScheduler`). The scheduler's scan of a ring that
  shrinks under it, as a function on the slots of the ring; where exactly it stops; and the linked ring that
  implements it.
- **Streaming list of the proxy** (`StreamList`, `StreamRestart`, `StreamDelivery`). One appender and any number
  of readers, of two kinds: those that keep their cursor and the proxy's own client loop, which resets it; and
  what they receive, against what the download delivered.
- **HTTP requests of the proxy** (`HttpMessages`, `HttpRoundTrip`, `HttpStartLine`). Printer and parser, byte by
  byte, what the parser makes of what the printer wrote, and what is asked of the origin server (sections
  3.2.1, 3.2.2 and 5 of RFC 9112).
- **Reversal of files and trees** (`ReverseFiles`, `ReverseTree`). The blockwise copy on an array, the name
  loops, and the recursive walk over a file system of path strings, which lays the mirrored tree over whatever
  is at the destination.

Several promises turned out not to hold as a reader of the code might expect. For each there is a lemma with
a concrete case, or a contract, and the exact condition under which the promise is kept:

- the proxy's client loop can send chunks twice (`StreamList.HandlerCanRepeatChunks`); it sends the response
  exactly when it never resets its cursor (`HandlerStreamsExactlyIffNoRestart`); that is at the last chunk of a
  list not yet complete (`RestartsExactlyWhenAheadOfAppender`), and a client that joins is exposed to it exactly
  in the states that `StreamRestart.JoiningClientCanBeResetIff` names;
- a sleeping thread can get the processor back early (`ScanRing.SleeperCanReturnEarly`): exactly if every thread
  that may run stands directly behind an odd run of finished threads (`ScanStops.SleeperReturnsIff`), hence never
  while no thread has finished (`ScanRing.SleeperYields`);
- a received header field can cut off the header when it is sent on (`HttpRoundTrip.LineFeedValueTruncatesHeader`):
  exactly if its line ends in a line feed with no carriage return since the value part began
  (`ReceivedFieldSurvivesIff`), as an empty value and every line ended by a bare line feed do;
- a request is sent on as one for the root unless its path has two slashes in a row and a third behind the host
  (`HttpStartLine.PathBehindHost`, `RootOfHost`, `RootOtherwise`), so for every path in origin form;
- a file whose name is a palindrome, in a folder that is its own destination, is emptied
  (`ReverseTree.FileSystem.CreateReverseFile`; `OwnDestinationIffPalindrome` for which folders those are);
- a file of two bytes is not reversed (`ReverseFiles.CopiedIsReversedIff`, `ReverseTree.MirrorTwiceIffIntact`);
- an existing directory is not refused, although the message of line 65 of `reverse.c` says that it would be:
  `ALREADY_EXIST` is 0 and so is the answer of a mkdir that succeeds (`ReverseTree.FileSystem.ReverseDir`).

## Model

| member | source | states |
|---|---|---|
| LockCoupledTheorems.PassSeesEveryNodeOnce | sem2/lab2/task2_3/mutex/list.c:118-158 | A reader that closes a pass has locked every node of the list exactly once, the sentinel first, whatever the swappers did in between, and its counter is the streak of the order it saw |
| LockCoupledTheorems.StreakIsLongestRun | sem2/lab2/task2_3/mutex/list.c:139-146 | The streak counter is the length of the longest run, up to the end of the walk, of neighbours whose strings get longer (increasing_thread), get shorter (decreasing_thread) or are equally long (equal_thread); the comparison with the sentinel is not made |
| LockCoupledTheorems.HeldNodeFreezesPrefix | sem2/lab2/task2_3/rwlock/list.c:96-132 | While a thread holds a node, no schedule of the other threads changes the set of nodes before it (hence how many come after it), its position, or the locals of the thread |
| LockCoupledTheorems.StepFreezesPrefix | sem2/lab2/task2_3/mutex/list.c:283-293 | One step of another thread, including a swap, leaves the nodes before a held node as they were |
| LockCoupledTheorems.PassStepDescends | sem2/lab2/task2_3/mutex/list.c:134-150 | Each own step of a pass closes it or lowers a bound that is linear in the nodes not yet locked |
| LockCoupledTheorems.PassEnds | sem2/lab2/task2_3/mutex/list.c:118-158 | In every interleaving a reader that keeps moving closes its pass after a number of its own steps linear in the length of the list |
| LockCoupledTheorems.WaitingMovesForward | sem2/lab2/task2_3/mutex/list.c:264-283 | If one blocked thread waits for another, the second waits strictly further on in the current order |
| LockCoupledTheorems.WaitsForIsAcyclic | sem2/lab2/task2_3/mutex/list.c:118-306 | In every reachable state the waits-for relation has no cycle of any length |
| LockCoupledTheorems.SomeThreadCanStep | sem2/lab2/task2_3/mutex/list.c:115-309 | Deadlock freedom: while any thread has not left its loop, some thread can step |
| LockCoupledTheorems.SomeThreadIsAdmitted | sem2/lab2/task2_3/rwlock/list.c:93-284 | Deadlock freedom does not depend on who is let in first: even if every waiting writer keeps readers out, some thread can step |
| LockCoupledTheorems.ChainIsPermutation | sem2/lab2/task2_3/mutex/list.c:285-289 | Whenever no thread is between the stores of a swap, following the pointers from the sentinel meets every original node exactly once and ends |
| LockCoupledTheorems.RecheckAlwaysSucceeds | sem2/lab2/task2_3/mutex/list.c:285 | Both comparisons of the second look succeed in every reachable state |
| LockCoupledTheorems.LocalsNameListNodes | sem2/lab2/task2_3/mutex/list.c:118-300 | No reader dereferences null; at every lock, check and store `prev`, `cur` and `nxt` are neighbours in the current order; no thread locks a node it already holds |
| LockCoupledTheorems.UnlockedAdvanceStaysInList | sem2/lab2/task2_3/mutex/list.c:301-304 | The pointer followed without a lock, also in the middle of a swap by others, leads to a list node other than the sentinel and the node it is read from, or ends the pass |
| LockCoupledTheorems.ExclusiveHolderIsAlone | sem2/lab2/task2_3/rwlock/list.c:98-132 | Two threads hold one node only if both are readers of the read/write-lock list |
| LockCoupledTheorems.ListInit | sem2/lab2/task2_3/mutex/list.c:57-95 | The construction loop builds the chain of the sentinel and `n` nodes, and just the sentinel for a count that is not positive |
| LockCoupledTheorems.ListDestroy | sem2/lab2/task2_3/mutex/list.c:100-113 | The freeing loop frees the nodes in chain order, each once |
| LockCoupledTheorems.TearDown | sem2/lab2/task2_3/mutex/list.c:100-113 | After any run in which all threads have left their loops, no lock is held and list_destroy frees every node exactly once |
| LockCoupledProgress.DrawnSwapIsMade | sem2/lab2/task2_3/mutex/list.c:282-293 | A swapper that draws a swap makes it: in every interleaving, once it has made eight moves its count of swaps is one higher, the two nodes have exchanged their places behind the first, and the three pointers link them in the new order |
| LockCoupledProgress.UndrawnSwapIsSkipped | sem2/lab2/task2_3/mutex/list.c:298-305 | Without the draw four moves bring the swapper back to the loop test or to the end of its round; none of them changes the list, and no swap is counted |
| LockCoupledProgress.SwapperStaysAtNode | sem2/lab2/task2_3/mutex/list.c:295-297 | After a swap three more moves give back all locks, and the swapper looks on from the same node |
| LockCoupledProgress.SwapperComesToChoose | sem2/lab2/task2_3/mutex/list.c:261-282 | A swapper at the top of its loop, not told to stop, stands at the choice after six moves, with the sentinel and the first two nodes of the current order, if there are two |
| LockCoupledProgress.SwapperLooksAhead | sem2/lab2/task2_3/mutex/list.c:266-304 | The node looked up is the next in the current order; the round goes on exactly if there is one |
| LockCoupledProgress.EmptyHandedRoundEnds | sem2/lab2/task2_3/mutex/list.c:268-280 | A swapper that finds no further node gives back all its locks and ends its round |
| LockCoupledProgress.RoundDescends | sem2/lab2/task2_3/mutex/list.c:264-306 | Between two tests of the inner loop at most fifteen moves pass: each lowers a count of those left |
| LockCoupledProgress.LoopsUntilStopped | sem2/lab2/task2_3/mutex/list.c:118-262 | A thread leaves its loop exactly at the top and exactly if told to stop; otherwise a reader begins a pass and a swapper a round at the sentinel |
| LockCoupledProgress.PassIsMade | sem2/lab2/task2_3/mutex/list.c:118-158 | A reader that is not told to stop has counted another pass after 5 n + 4 moves of its own, in every interleaving |
| LockCoupledProgress.KeptOutIffHeld | sem2/lab2/task2_3/rwlock/list.c:98-132 | A thread about to lock a node is kept out if and only if some thread holds the node and not both are readers of the read/write-lock list |
| LockCoupledInvariant.ExecKeepsInv | sem2/lab2/task2_3/mutex/list.c:115-309 | The invariant (chain, positions, lock tables, what each program counter knows) survives every schedule of any number of threads, for mutexes and for read/write locks |
| LockCoupledInvariant.HeldIsLinked | sem2/lab2/task2_3/mutex/list.c:285-289 | Away from the stores of a swap by its own holder, the pointer of a held node is the successor in the list order |
| LockCoupledInvariant.SwapLeavesOthers | sem2/lab2/task2_3/mutex/list.c:287-289 | A swap moves two nodes and nothing else: every node outside it keeps its position, its successor and the set of nodes before it |
| LockCoupledInvariant.CoversExtend | sem2/lab2/task2_3/rwlock/list.c:115-128 | Extending a walk by the locked successor covers exactly one more node, and none twice |
| FutexMutex.MutualExclusion | sem2/lab2/task2_4/my_mutex/my_mutex.c:33-66 | At most one thread is between its exchange and its store of 1; the word is 1 exactly if there is none; a word of 1 implies owner 0; the owner field names a holder only |
| FutexMutex.OwnerTestsAreRight | sem2/lab2/task2_4/my_mutex/my_mutex.c:18-52 | The unprotected tests of the owner are right in every interleaving: a thread reads its own id exactly if it has the mutex |
| FutexMutex.NoLostWakeup | sem2/lab2/task2_4/my_mutex/my_mutex.c:33-72 | With a sleeper about, the word is 0 or a thread is about to wake somebody or is awake in the acquire loop |
| FutexMutex.FreeMutexGetsTaken | sem2/lab2/task2_4/my_mutex/my_mutex.c:33-72 | From every reachable state with the mutex free and a sleeper, two steps suffice to take it |
| FutexMutex.RecursionCountsDepth | sem2/lab2/task2_4/my_mutex/my_mutex.c:18-62 | Between calls, `recursion` is the owner's acquisitions less its releases, and nobody else has an excess of acquisitions |
| FutexMutex.WordRisesAtOutermostUnlock | sem2/lab2/task2_4/my_mutex/my_mutex.c:60-66 | The word returns to 1 at exactly one kind of step, the store that matches the outermost lock |
| FutexMutex.ForeignUnlockChangesNothing | sem2/lab2/task2_4/my_mutex/my_mutex.c:52-59 | Unlocking without having the mutex returns and changes nothing, or aborts for the error-checking type |
| FutexMutex.AbortsExactlyOnMisuse | sem2/lab2/task2_4/my_mutex/my_mutex.c:18-58 | A step aborts the process if and only if it is that of an owner relocking a normal mutex or of a thread unlocking an error-checking one that it does not have |
| FutexMutex.OwnerRelockAborts | sem2/lab2/task2_4/my_mutex/my_mutex.c:16-31 | Once the owner of a normal mutex calls lock, three more steps of its own abort the process, whatever the others do in between |
| FutexMutex.RefinesAtomicMutex | sem2/lab2/task2_4/my_mutex/my_mutex.c:16-73 | Every micro-step is invisible or one atomic acquire, re-enter, leave or release of the thread that makes it |
| FutexMutex.ExecKeepsInv | sem2/lab2/task2_4/my_mutex/my_mutex.c:16-73 | The invariant over program counters, word, owner, depth and sleepers survives every schedule |
| FutexCalls.OwnerRelocks | sem2/lab2/task2_4/my_mutex/my_mutex.c:18-22 | The owner of a recursive mutex locks again: in every interleaving, after four runs the call has returned, the depth is one higher and the mutex still its own |
| FutexCalls.OwnerRelockIsRefused | sem2/lab2/task2_4/my_mutex/my_mutex.c:23-26 | The owner of an error-checking mutex locks again: after three runs the call has returned and word, owner and depth are as they were, unless another thread has aborted the process by a foreign unlock |
| FutexCalls.OwnerLeavesLevel | sem2/lab2/task2_4/my_mutex/my_mutex.c:50-62 | The owner of a recursive mutex unlocks at a depth above 1: after three runs the call has returned, the depth is one lower and the mutex still its own |
| FutexCalls.OwnerGivesAway | sem2/lab2/task2_4/my_mutex/my_mutex.c:50-66 | At the outermost level the sixth run of the call, or the fourth of a mutex that is not recursive, leaves word 1, owner 0 and depth 0 with the wake-up to come, unless another thread has aborted the process |
| FutexCalls.LockReturnsWithMutex | sem2/lab2/task2_4/my_mutex/my_mutex.c:33-46 | A lock call of a thread that does not have the mutex returns only with it: in every interleaving word 0, its own id as owner and depth 1 |
| FutexCalls.FreeMutexIsLocked | sem2/lab2/task2_4/my_mutex/my_mutex.c:33-39 | Of a free mutex, an undisturbed lock call returns with it after four runs and leaves all other threads and the sleepers alone |
| FutexCalls.TakenMutexPutsCallerToSleep | sem2/lab2/task2_4/my_mutex/my_mutex.c:33-46 | Of a mutex that another thread has, an undisturbed lock call ends asleep after four runs and changes nothing else |
| FutexCalls.WaitAndWake | sem2/lab2/task2_4/my_mutex/my_mutex.c:41-72 | The wait puts the thread to sleep exactly if the word is still 0; the wake sends exactly one sleeper, if there is one, back to the exchange |
| MutexClients.ReaderSeesCountingUp | sem2/lab2/task2_4/my_mutex/main.c:44-58 | For every interleaving of reader and writer under the micro-step mutex, the values obtained are 0, 1, 2, ...; no error is reported, no assertion fails, nothing aborts |
| MutexClients.QueueConserves | sem2/lab2/task2_4/my_mutex/main.c:44-77 | Between operations, what was obtained followed by what is queued is exactly what was added, so failed calls lose and duplicate nothing |
| MutexClients.OperationsNeverOverlap | sem2/lab2/task2_4/my_mutex/main.c:46-73 | The two queue operations never overlap |
| MutexClients.SomeClientCanMove | sem2/lab2/task2_4/my_mutex/main.c:44-77 | In every reachable state one of the two clients can move |
| MutexTransfers.AddFailsOnlyWhenFull | sem2/lab2/task2_1/queue.c:67-99 | Under the mutex, queue_add fails only with as many values queued as there may be, and otherwise leaves its value at the end |
| MutexTransfers.GetFailsOnlyWhenEmpty | sem2/lab2/task2_1/queue.c:102-122 | Under the mutex, queue_get fails only with none queued, and otherwise takes the first value |
| MutexTransfers.AnyNumberGetsThrough | sem2/lab2/task2_4/my_mutex/main.c:44-79 | For every k there is a run in which the reader has obtained 0 to k - 1 and the queue is empty, for every bound but 0 |
| LinkedQueue.Queue.constructor | sem2/lab2/task2_1/queue.c:28-34 | An empty queue with the bound given and all counters 0 |
| LinkedQueue.Queue.Add | sem2/lab2/task2_1/queue.c:67-99 | Appends the value in a new node at the end unless the queue is full, and fails its assertion exactly for a negative bound; says which counters move; the list stays linked, acyclic and counted |
| LinkedQueue.Queue.Link | sem2/lab2/task2_1/queue.c:84-93 | The pointer writes append the node to the chain, whether or not it was empty |
| LinkedQueue.Queue.Get | sem2/lab2/task2_1/queue.c:102-122 | Removes and frees the oldest node and hands out its value, or leaves the caller's value alone on an empty queue |
| LinkedQueue.Queue.Destroy | sem2/lab2/task2_1/queue.c:55-61 | Frees every node of the queue exactly once, from the front |
| LinkedQueue.FirstInFirstOut | sem2/lab2/task2_1/queue.c:67-122 | Over every history the values handed out followed by those queued are the values accepted, and the bound is kept |
| LinkedQueue.RunHistory | sem2/lab2/task2_1/queue.c:67-122 | The queue object, driven through any history, has the contents, deliveries and counts that the history specifies |
| MonitorQueue.SleepersHaveReason | sem2/lab2/task2_2/conditionalVarible/queue.c:94-129 | With the lock free, a consumer sleeps only on an empty queue, a producer only on a full one, and never both kinds at once if there is room for a value |
| MonitorQueue.OneInMonitor | sem2/lab2/task2_2/conditionalVarible/queue.c:94-129 | At most one thread is inside the monitor |
| MonitorQueue.FirstInFirstOut | sem2/lab2/task2_2/conditionalVarible/queue.c:84-132 | In every run the values taken followed by those queued are the values added; the assertions hold; with the lock free, count is the number queued and add_count less get_count |
| MonitorQueue.SomeThreadCanMove | sem2/lab2/task2_2/conditionalVarible/queue.c:94-129 | With a producer, a consumer and room for a value the system never comes to rest, even without spurious wake-ups |
| MonitorCalls.GetsReturnWhatAddsBring | sem2/lab2/task2_2/conditionalVarible/queue.c:84-132 | In every run the values that returned gets hand to their callers, in the order of the returns, followed by those queued, are the values of the returned adds in the order of theirs, but for the one call that has made its change and not yet returned |
| MonitorCalls.AddBringsGivenValue | sem2/lab2/task2_2/conditionalVarible/queue.c:84-92 | The value of an add is what its caller gave to it |
| MonitorCalls.CallSleepsAlone | sem2/lab2/task2_2/conditionalVarible/queue.c:94-122 | An undisturbed get on an empty queue, or add on a full one, ends asleep with the lock free and nothing else changed |
| MonitorCalls.CallReturnsAlone | sem2/lab2/task2_2/conditionalVarible/queue.c:94-131 | Otherwise the undisturbed call returns with its value appended or the oldest one handed out, counts and lock in order, and the sleepers of the other kind awake |
| StreamList.KeptCursorStreamsExactly | sem2/lab3/task3_3/list/list.c:4-26 | A reader that keeps its cursor gets a prefix of the chunks in append order; it is told that there are no more only when the list is complete and all were delivered |
| StreamList.SleepersHaveReason | sem2/lab3/task3_3/list/list.c:6-24 | With the mutex free, nobody sleeps who has a successor or whose list is complete |
| StreamList.CompleteIsFinal | sem2/lab3/task3_3/main.c:206-235 | Once complete is set the list never changes |
| StreamList.HandlerStreamsExactlyIffNoRestart | sem2/lab3/task3_3/main.c:62-96 | The client loop of the proxy sends exactly the response if and only if it never reset its cursor; in every case the chunks since the last reset are the whole response |
| StreamList.RestartsExactlyWhenAheadOfAppender | sem2/lab3/task3_3/main.c:86-95 | The cursor is reset if and only if the last chunk so far has no successor yet and the list is not complete |
| StreamList.CompleteListNeverRestarts | sem2/lab3/task3_3/main.c:62-96 | On a complete list no client resets its cursor, whatever is scheduled |
| StreamRestart.JoiningClientCanBeResetIff | sem2/lab3/task3_3/main.c:62-95 | At the moment a client joins: some schedule makes it reset its cursor if and only if the appender has not yet taken the mutex to complete the list and there is a chunk or can still be one |
| StreamList.HandlerCanRepeatChunks | sem2/lab3/task3_3/main.c:91-95 | A concrete run in which the client receives the only chunk twice |
| StreamList.SomebodyCanMove | sem2/lab3/task3_3/main.c:72-83 | While the appender or a client has work left, somebody can move without a spurious wake-up |
| StreamDelivery.ListHoldsOffered | sem2/lab3/task3_3/list/list.c:81-113 | The list holds the chunks that the download has offered so far, in order, but for one on its way; a complete list holds them all |
| StreamDelivery.KeeperReceivesOffered | sem2/lab3/task3_3/list/list.c:4-26 | A reader that keeps its cursor receives a prefix of what was offered, and all of it by the time that it is told that there is no more |
| StreamDelivery.HandlerReceivesOfferedIff | sem2/lab3/task3_3/main.c:62-96 | A client of the proxy that has finished received exactly what was offered if and only if it never reset its cursor; what it received since the last reset is all that was offered |
| StreamDelivery.NewestChunkIsGuarded | sem2/lab3/task3_3/main.c:209-217 | Between two calls of list_add exactly the newest chunk is locked by the appender, and no reader sends it meanwhile |
| StreamDelivery.DownloadCompletes | sem2/lab3/task3_3/main.c:232-235 | With the mutex free, four moves set complete, wake every sleeper and give the mutex back |
| StreamDelivery.WaitDecides | sem2/lab3/task3_3/list/list.c:6-24 | The wait sleeps exactly if there is no next chunk and the list is not complete, returns 0 exactly if there is none and it is complete, and otherwise returns with the next chunk |
| StreamDelivery.KeeperDrains | sem2/lab3/task3_3/list/list.c:4-26 | Once the download is over, a reader that keeps its cursor can run to the end and has then sent every chunk |
| StreamDelivery.HandlerDrains | sem2/lab3/task3_3/main.c:64-96 | And so can a client of the proxy, without a reset from there on |
| HeapBlocks.AllocateKeepsInv | sem1/lab4/task4_3/my_heap.c:16-37 | Allocation keeps the blocks tiling the arena, each beginning where the last ends, without two free neighbours |
| HeapBlocks.AllocateAddsOneLive | sem1/lab4/task4_3/my_heap.c:19-32 | Allocation adds one live block and keeps all others; it grants at least what was asked and at most a header more, and makes no empty free block |
| HeapBlocks.AllocationFailsIffNoGap | sem1/lab4/task4_3/my_heap.c:17-36 | Allocation fails if and only if no stretch of bytes outside live blocks has room for the size and a header |
| HeapBlocks.AllocationIsLowest | sem1/lab4/task4_3/my_heap.c:17-33 | The block handed out begins at the lowest address at which the size and a header fit |
| HeapBlocks.CoalesceSeparates | sem1/lab4/task4_3/my_heap.c:39-50 | Merging leaves no two free neighbours |
| HeapBlocks.CoalesceTiles | sem1/lab4/task4_3/my_heap.c:39-50 | Merging keeps the blocks tiling the same stretch |
| HeapBlocks.CoalesceKeepsLive | sem1/lab4/task4_3/my_heap.c:39-50 | Merging keeps the live blocks, in order |
| HeapBlocks.ReleaseKeepsInv | sem1/lab4/task4_3/my_heap.c:52-60 | Freeing a live pointer keeps the heap well formed and removes exactly that live block |
| HeapBlocks.LiveBlocksAreDisjoint | sem1/lab4/task4_3/my_heap.c:16-33 | Two live blocks never overlap |
| HeapBlocks.RunKeepsInv | sem1/lab4/task4_3/my_heap.c:16-60 | After every history of calls that frees live pointers only, the heap is well formed and its live blocks are exactly the pointers still held |
| HeapBlocks.AllFreedRestoresHeap | sem1/lab4/task4_3/my_heap.c:52-73 | Once everything has been freed, in any order, the heap is again the one free block that initialize made |
| HeapBlocks.BytesAddUp | sem1/lab4/task4_3/my_heap.c:16-50 | Sizes and headers of the blocks always add up to the arena |
| HeapArena.Arena.constructor | sem1/lab4/task4_3/my_heap.c:63-73 | The fresh arena holds the header of one free block |
| HeapArena.Arena.MyMalloc | sem1/lab4/task4_3/my_heap.c:16-37 | The list walk and header writes on the array implement first-fit allocation, return its payload address or null, and change no byte of a live payload |
| HeapArena.Arena.Take | sem1/lab4/task4_3/my_heap.c:20-31 | The block that was found is split or handed out whole, as specified, and no byte of a live payload changes |
| HeapArena.Arena.Split | sem1/lab4/task4_3/my_heap.c:21-27 | The two header writes of a split leave the list of blocks that allocation specifies |
| HeapArena.Arena.MergeBlocks | sem1/lab4/task4_3/my_heap.c:39-50 | The in-place merge implements coalescing and changes no byte of a live payload |
| HeapArena.Arena.MergeNext | sem1/lab4/task4_3/my_heap.c:42-45 | Swallowing the next block leaves one block of the joint extent, and the list as specified |
| HeapArena.Arena.MyFree | sem1/lab4/task4_3/my_heap.c:52-60 | Freeing on the array implements release; null changes nothing; header write and memset change no byte of another live payload |
| HeapArena.Arena.Store | sem1/lab4/task4_3/my_heap.c:91-94 | A store by the owner of a payload leaves every header standing |
| HeapArena.GuardedSumCannotWrap | sem1/lab4/task4_3/my_heap.c:19-20 | The unsigned sum of line 20 is only computed after the guard of line 19, and then it does not wrap |
| HeapArena.RunCalls | sem1/lab4/task4_3/my_heap.c:16-73 | The allocator on its array carries out any well-behaved history as specified, and restores the initial block once all is freed |
| ScanRing.ScanRemovesOnlyFinished | sem2/lab1/task1_7/u_thread.c:39-64 | The scan removes finished threads only: all unfinished ones stay, in order, and none is added |
| ScanRing.ScanStopsWell | sem2/lab1/task1_7/u_thread.c:61-64 | The scan stops at an unfinished thread whose deadline has passed, or back at the caller |
| ScanRing.ScanFindsFirst | sem2/lab1/task1_7/u_thread.c:39-64 | With nobody finished it stops at the first thread ahead that may run; all those passed over were asleep |
| ScanRing.SleeperYields | sem2/lab1/task1_7/u_thread.c:28-71 | With nobody finished, a thread that sleeps does not keep the processor |
| ScanStops.ScanStopsAtFirstCaught | sem2/lab1/task1_7/u_thread.c:39-64 | With any number of finished threads: the scan stops at the first thread ahead that may run and has an even run of finished threads directly behind it, else at the caller |
| ScanStops.SleeperReturnsIff | sem2/lab1/task1_7/u_thread.c:28-71 | A sleeping caller keeps the processor if and only if every thread that may run, the head included, stands directly behind an odd run of finished threads |
| ScanRing.SleeperCanReturnEarly | sem2/lab1/task1_7/u_thread.c:41-64 | With a finished thread about it can: a concrete ring on which the sleeping caller continues at once |
| ScanRing.AwakeThreadGetsItsTurn | sem2/lab1/task1_7/u_thread.c:34-71 | On a fixed ring a thread that stays awake becomes current within as many calls as it lies steps ahead |
| ScanRing.ReadyThreadGetsItsTurn | sem2/lab1/task1_7/u_thread.c:34-71 | While threads finish and are unlinked: one that may run at every call becomes current within as many calls as the square of the number of threads |
| UThreadScheduler.Manager.constructor | sem2/lab1/task1_7/u_thread.c:143-167 | A ring of the main thread alone |
| UThreadScheduler.Manager.Create | sem2/lab1/task1_7/u_thread.c:104-141 | Links the new thread in right behind the current one and keeps the ring well formed, counted and numbered (0 for the main thread, odd ids for the others) |
| UThreadScheduler.Manager.LinkIn | sem2/lab1/task1_7/u_thread.c:133-138 | The four pointer writes leave one well-formed cycle with the new thread behind the current one |
| UThreadScheduler.Manager.Unlink | sem2/lab1/task1_7/u_thread.c:44-52 | Unlinking a thread other than the head keeps the ring well formed and counted |
| UThreadScheduler.Manager.Drop | sem2/lab1/task1_7/u_thread.c:41-59 | The removal branch unlinks exactly the finished thread, steps on to its successor, and never runs out of threads |
| UThreadScheduler.Manager.Round | sem2/lab1/task1_7/u_thread.c:39-64 | One round of the do/while is one round of the scan; either the ring shrinks or the cursor advances |
| UThreadScheduler.Manager.Scheduler | sem2/lab1/task1_7/u_thread.c:34-71 | The scan terminates on the linked ring with the result of the specification; the ring stays one well-formed cycle with head, current thread and count right; it switches only to a thread that may run |
| UThreadScheduler.Manager.USleep | sem2/lab1/task1_7/u_thread.c:20-31 | Sets the deadline of a thread other than the main one; if it is still ahead at the scan, the thread keeps the processor exactly if all that may run stand behind odd runs of finished threads, so never with nobody finished; in every case, the main thread included, the current thread is the one at which the scan stops |
| ScanRing.UnfinishedStay | sem2/lab1/task1_7/u_thread.c:41-58 | No unfinished thread drops out of the ring, and whoever drops out had finished |
| HttpMessages.ParseMethod | sem2/lab3/task3_3/handler/messages/messages.c:96-154 | The tokenising loop delivers what the specification of the first line says, for every line |
| HttpMessages.ParseMetadata | sem2/lab3/task3_3/handler/messages/messages.c:156-177 | Appends the field that the line specifies, or nothing if it has no name or no value |
| HttpMessages.ReadLine | sem2/lab3/task3_3/handler/handlers.c:202-217 | Takes the bytes up to and including the first line feed, at most the buffer less its terminator |
| HttpMessages.ReadFieldLines | sem2/lab3/task3_3/handler/handlers.c:63-74 | The header loop collects the fields up to the blank line or the end of the stream |
| HttpMessages.ReadHeader | sem2/lab3/task3_3/handler/handlers.c:49-76 | The reader delivers the parsed header and leaves exactly the bytes behind it |
| HttpMessages.MeasureFields | sem2/lab3/task3_3/handler/messages/messages.c:217-223 | The first pass computes the length of the field lines that are kept |
| HttpMessages.WriteFields | sem2/lab3/task3_3/handler/messages/messages.c:248-256 | The second pass appends exactly those lines |
| HttpMessages.BuildRequest | sem2/lab3/task3_3/handler/messages/messages.c:203-266 | Fails exactly for an invalid version; otherwise the text is the printed request and the length computed beforehand is its length |
| HttpStartLine.VerbIsFirstToken | sem2/lab3/task3_3/handler/messages/messages.c:116-132 | The method is the one whose name the first token of the line is; for any other token it is INVALID, and nothing else of the line is looked at |
| HttpStartLine.ThreeTokensAreParsed | sem2/lab3/task3_3/handler/messages/messages.c:116-151 | Of a line of three tokens beginning with a method name, the second is the path, and the first eight characters of the third decide on the version |
| HttpStartLine.BlankLineEndsHeader | sem2/lab3/task3_3/handler/handlers.c:63-74 | The header ends at the first line that is a carriage return and a line feed, and nowhere else; every line before it is looked at for a field, in order |
| HttpStartLine.PathBehindHost | sem2/lab3/task3_3/handler/messages/messages.c:179-193 | Of a path with two slashes in a row, what is asked for begins with the first slash behind the host that follows them |
| HttpStartLine.RootOfHost | sem2/lab3/task3_3/handler/messages/messages.c:194-196 | The root is asked for if no slash follows the host |
| HttpStartLine.RootOtherwise | sem2/lab3/task3_3/handler/messages/messages.c:197-199 | The root is asked for if the path has no two slashes in a row, so for every bare path |
| HttpStartLine.AbsoluteUri | sem2/lab3/task3_3/handler/messages/messages.c:179-201 | Of an absolute URI the proxy asks for the part behind the host, or the root if there is none |
| HttpStartLine.PrintedAsksFor | sem2/lab3/task3_3/handler/messages/messages.c:238-246 | The text sent for an absolute URI begins with the line that asks for the part behind the host |
| HttpStartLine.KeptFields | sem2/lab3/task3_3/handler/messages/messages.c:217-223 | The fields sent on are all but those named Connection and Proxy-Connection, each as often as it was received |
| HttpStartLine.KeptInOrder | sem2/lab3/task3_3/handler/messages/messages.c:217-223 | The fields that are sent on keep their order |
| HttpStartLine.AbsoluteRequestRoundTrip | sem2/lab3/task3_3/handler/messages/messages.c:203-266 | The request sent for an absolute URI is read back as GET of the part behind the host, with the same version and the fields sent on, and Connection: close for version 1.1 |
| HttpStartLine.AbsoluteRequestSurvivesIff | sem2/lab3/task3_3/handler/messages/messages.c:203-266 | With fields as they were received, that holds if and only if no value sent on has a line feed |
| HttpRoundTrip.FieldRoundTrip | sem2/lab3/task3_3/handler/messages/messages.c:156-177 | A printed field is parsed as that field |
| HttpRoundTrip.FieldsRoundTrip | sem2/lab3/task3_3/handler/handlers.c:63-74 | Any number of printed fields are read back in order, up to the blank line and no further |
| HttpRoundTrip.StartLineRoundTrip | sem2/lab3/task3_3/handler/messages/messages.c:116-151 | The printed first line is parsed as GET, the path and the version |
| HttpRoundTrip.RequestRoundTrip | sem2/lab3/task3_3/handler/messages/messages.c:203-266 | Reading back what was printed yields GET, the extracted path, the same version, the kept fields and `Connection: close` for 1.1, and leaves what follows on the wire |
| HttpRoundTrip.ParsedPathIsClean | sem2/lab3/task3_3/handler/messages/messages.c:133-136 | A path that the parser delivered has no separators, before and after extraction, so it can be printed |
| HttpRoundTrip.ReadLinesAreDelivered | sem2/lab3/task3_3/handler/handlers.c:202-217 | Every line that the reader takes is not empty and has no line feed but perhaps as its last character |
| HttpRoundTrip.ReceivedShape | sem2/lab3/task3_3/handler/messages/messages.c:156-177 | A field of any such line has a name without colon and line feed and a value without carriage return and leading blank, with a line feed at most at its end |
| HttpRoundTrip.LineFeedInValueIff | sem2/lab3/task3_3/handler/messages/messages.c:164-174 | The value has that line feed if and only if the line ends in one with no carriage return between the beginning of the value part and it |
| HttpRoundTrip.ReceivedFieldSurvivesIff | sem2/lab3/task3_3/handler/messages/messages.c:156-177 | For every line the reader can deliver: its field, sent on and read back, comes through with exactly what follows left on the wire if and only if the line does not end so |
| HttpRoundTrip.ReceivedFieldsSurviveIff | sem2/lab3/task3_3/handler/messages/messages.c:248-256 | The same for any number of received fields: all come through if and only if no value has a line feed |
| HttpRoundTrip.RequestSurvivesIff | sem2/lab3/task3_3/handler/messages/messages.c:203-266 | The same for a whole request: the round trip succeeds if and only if no value that is sent on has a line feed |
| HttpRoundTrip.ValueIsKeptUnlessEmpty | sem2/lab3/task3_3/handler/messages/messages.c:164-174 | Of a line with name, colon and value, ended by CRLF or by a bare line feed, the value is kept without leading blanks; a bare line feed becomes part of it, and an empty value becomes a line feed |
| HttpRoundTrip.OrdinaryLineSurvivesIff | sem2/lab3/task3_3/handler/messages/messages.c:156-177 | So an ordinary line comes through if and only if it has a value and ends in CRLF |
| HttpRoundTrip.LineFeedValueTruncatesHeader | sem2/lab3/task3_3/handler/messages/messages.c:248-256 | What happens otherwise: the field itself is kept, but the reader takes the header to end there and the fields behind it for the body |
| ReverseFiles.ReverseBlock | sem1/lab3/task3_1/reverse.c:114-118 | The swap loop reverses the first bytes of the buffer in place and leaves the rest |
| ReverseFiles.FileSize | sem1/lab3/task3_1/reverse.c:73-84 | Tells the size and leaves the file positioned at its start |
| ReverseFiles.CopyContent | sem1/lab3/task3_1/reverse.c:94-126 | The blockwise copy appends the reversed file for every size but 2, for which it writes nothing |
| ReverseFiles.CopiedIsReversedIff | sem1/lab3/task3_1/reverse.c:96-100 | The copy is the reversed file if and only if the size is not 2 |
| ReverseFiles.CreateReverseName | sem1/lab3/task3_1/reverse.c:86-91 | Fills the buffer with the reversed name and leaves the rest, so the terminator stays |
| ReverseFiles.ReverseDirName | sem1/lab3/task3_1/reverse.c:44-52 | Keeps the path up to the last slash, reverses what follows, and terminates it |
| ReverseFiles.NameReversedDir | sem1/lab3/task3_1/reverse.c:54-69 | The scan for the last slash finds it, and the name is made from there |
| ReverseFiles.ReversedPathReversesName | sem1/lab3/task3_1/reverse.c:54-69 | Of a directory in a parent the name is reversed and the parent kept |
| ReverseFiles.ReversedPathTwice | sem1/lab3/task3_1/reverse.c:44-69 | Reversing a path twice gives the path back |
| ReverseTree.MirrorTwiceIffIntact | sem1/lab3/task3_1/reverse.c:158-214 | Mirroring is its own inverse on exactly the trees without a file of two bytes and without anything that is neither file nor folder |
| ReverseTree.MirrorMovesEverything | sem1/lab3/task3_1/reverse.c:158-214 | Whatever a path of names leads to, its mirror is where the path of reversed names leads, and nothing else is anywhere |
| ReverseTree.OverlayOnNothing | sem1/lab3/task3_1/reverse.c:158-214 | Laid over an empty folder, the mirrored tree stands alone |
| ReverseTree.OverlayTwice | sem1/lab3/task3_1/reverse.c:158-214 | Laying the same tree over a folder a second time changes nothing, so a repeated run is harmless |
| ReverseTree.PathFitsIff | sem1/lab3/task3_1/reverse.c:172-198 | The buffer sized for the source path holds the destination path if and only if that is no longer, whatever the name |
| ReverseTree.OwnDestinationIffPalindrome | sem1/lab3/task3_1/reverse.c:44-69 | A directory is its own destination if and only if its name is a palindrome |
| ReverseTree.FileSystem.CreateReverseDir | sem1/lab3/task3_1/reverse.c:37-42 | The answer is that of success exactly if the path was free or a directory already |
| ReverseTree.FileSystem.CreateReverseFile | sem1/lab3/task3_1/reverse.c:133-156 | Fails exactly if the destination is a directory; otherwise a destination that is a file or free holds the copy of the source, or nothing if it is the source itself; nothing else on the disk changes |
| ReverseTree.FileSystem.ReverseEntryName | sem1/lab3/task3_1/reverse.c:182-185 | The name of an entry is reversed in a buffer with room for the terminator |
| ReverseTree.FileSystem.ReverseSubfolder | sem1/lab3/task3_1/reverse.c:191-209 | The branch for subfolders lays the mirrored subfolder over what is there under the reversed name, and nothing else |
| ReverseTree.FileSystem.ReverseEntry | sem1/lab3/task3_1/reverse.c:167-210 | One turn of the walk lays one mirrored entry over what the destination shows, or none for a special file |
| ReverseTree.FileSystem.ReverseFiles | sem1/lab3/task3_1/reverse.c:158-214 | The recursive walk of a folder, in any listing order, lays the mirrored tree over the folder at another path of equal length and changes nothing else; no path is truncated |
| ReverseTree.FileSystem.ReverseDir | sem1/lab3/task3_1/reverse.c:54-71 | Refuses only a path that something other than a directory has taken |
| ReverseTree.FileSystem.Reverse | sem1/lab3/task3_1/reverse.c:224-244 | The program on a folder that is not its own destination: nothing happens if the reversed path is taken by something else than a directory; otherwise the mirrored tree is laid over what is there, alone if the path was free, and the source and the rest of the disk are as they were |

## Left out

- System calls as such: mmap, clone, ucontext, sockets, signals, printf and sleeping. What they do to the state is modelled: the futex and condition wait sets, the thread chosen for swapcontext, a byte sequence for a file or a socket.
- Failures of malloc, pthread initialisation, recv and send, and EINTR from the futex.
- The spinlock list, the mutex, spinlock and semaphore queues and `my_spinlock.c`: the same protocols again, or easier ones; `task2_2/d` is not synchronised at all.
- Monitor threads, statistics output and the mutexes around the statistics counters; `rand() % 25` is any choice.
- Read/write locks that prefer writers: in the model a reader may take a lock that a writer waits for, which allows more runs; fairness is not claimed.
- LockCoupledTheorems.ListInit: node strings are any lengths, chosen beforehand, instead of random characters; nodes are indices and pointers are optional indices, so freed memory is not reused.
- MutexClients.QueueConserves: the queue of this model is the sequence of its values and its counter; its nodes and pointers are those of `LinkedQueue`.
- LinkedQueue.RunHistory: the bound is not negative; otherwise the first add fails the assertion at line 70 of `queue.c`.
- MonitorQueue.FirstInFirstOut: the bound is not negative, for the same reason (line 96 of its `queue.c`).
- FutexMutex.NoLostWakeup: thread ids are distinct and positive; the depth is an unbounded integer.
- HeapArena.Arena.MyFree: the pointer must be null or live; freeing twice or a foreign pointer is not described.
- HeapArena.Arena.MyMalloc: a header occupies 24 cells of which the first carries its three fields; the encoding of the fields as bytes, and alignment, are not modelled.
- UThreadScheduler.Manager.Scheduler: stacks, contexts and unmapping are left out, and the head must be unfinished and awake; the manager's main thread starts with deadline 0, which `init_thread` leaves unset.
- ScanRing.ReadyThreadGetsItsTurn: says nothing of rings in which threads are created between calls.
- ScanStops.ScanStopsAtFirstCaught: for a caller that has not finished; a finished one may be unlinked under way.
- StreamList.SomebodyCanMove: the loop that reads the origin server always delivers another chunk or ends; a server that stalls is a client that waits.
- The rest of the proxy's client handler: connection errors, redirects, removal from the cache, the map of URLs, the semaphore for clients.
- HttpMessages.ReadHeader: the version field, which is left uninitialised when the first line has no version, is a parameter; NUL bytes inside a line are not modelled.
- HttpMessages.BuildRequest: the path must be set; the code would pass a null pointer to strstr.
- HttpRoundTrip.RequestSurvivesIff: lines that fit the buffer; longer ones are cut by the reader, and what it makes of the pieces is not described.
- ReverseTree.FileSystem.Reverse: a folder whose name is a palindrome is its own destination. It is then read while it is written, and what the listing shows meanwhile is up to the file system; what is left of each file is described, of the folder as a whole it is not.
- ReverseTree.FileSystem.ReverseFiles: files that cannot be opened, read or written, links, and paths beyond PATH_MAX. A path is a string; the empty string stands for the root.
- The remaining labs (sem1 labs 2, 4_1, 4_2, 5 and 7, the file-system manager, the pagemap dump, sem2 lab 1 tasks 1 to 6): system-call plumbing without a hard property.
