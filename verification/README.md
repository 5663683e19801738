# Verified models of the practice_project sorts, queues, lists and thread pools

The repository holds C exercises and three socket chat programs. This project
models their algorithmic cores in Dafny and proves what they are for, for every
input and every schedule.

* **Sorts** (`SortSpec`, `ShellSort`, `InsertSort`, `RangeStack`, `QuickSort`,
  `HoareSort`, `SortsAgree`): the in-place array algorithms with their own loops
  and hand-made range stacks. Shell sort is shown to accumulate gap orderings
  (Theorem K), insertion sort to make one shift per out-of-order pair, and the
  two quicksorts to stay inside their arrays and stacks. All four are compared
  on one input.
* **Thread pools** (`Runs`, `Tally`, `UdpPool`, `BroadcastPool`): callers and workers as a
  step relation with an explicit mutex, condition variable and spurious wakeups;
  one step per source action. The theorems quantify over every state of every
  interleaving. No wakeup is lost: every schedule ends, and at the end every task
  was done and every argument the pool had copied was freed.
* **Server pipeline** (`ServerPipeline`, `ServerHistory`, `ServerOnPool`): receive, message queue,
  dispatcher, pool and send, with heap blocks that are allocated, copied, freed and
  reused. Safety over every run; accounts that follow every datagram, notification
  and block from where it comes in to where it ends; and the exact condition under
  which an accepted message is undelivered when nothing can move. First over a plain
  queue of tasks, then on the UDP pool itself, whose runs are shown to refine those.
* **Intrusive lists** (`IntrusiveList`) and what is built on them (`ListQueue`,
  `ClientRegistry`, `RegistrySpec`): real pointer rings with exact `modifies` clauses.
* **Queue libraries** (`FifoSpec`, `SeqQueue`, `LinkQueue`, `Bytes`): a ring buffer at
  byte level and a linked queue with allocation failure, both refining one
  reference queue.
* **Checksum** (`Checksum`): the set/check pair on messages of any length.

`Common` holds notions that several modules share. `dafny verify dfyconfig.toml`
checks everything.

Reading notes. Arrays stand for the C pointer and count together. Pools and
pipeline are relations on states rather than classes, because their subject is
the interleaving of threads, which sequential methods cannot express; the queue
inside them is the one `ListQueue` implements on pointers. `ServerPipeline` sees
the pool as a queue that idle workers take from; `ServerOnPool.RunsTheServer`
proves that the pool adds no behaviour to that view, and `RestOfServer` that it
holds nothing up. Environment choices (what arrives on a socket, whether malloc
succeeds, which sleeper a signal wakes) are parameters of methods and steps. In
`lc_quick_sort` and `quick_sort` the weight that the stack loops use up is twice
the pending positions less one per range: total length alone does not fall when a
middle-pivot partition splits a range in two without loss.

## Model

| member | source | states |
|---|---|---|
| `ShellSort.EarlierGapsSurvive` | c/old_practice/practice_srcs/sort_algo/shell_sort.c:10-18 | Theorem K for arbitrary gaps g and h: whatever rearranges an array inside the residue classes of h and leaves it h-ordered keeps every g-ordering it had |
| `ShellSort.IndependentSortsStayRelated` | c/old_practice/practice_srcs/sort_algo/shell_sort.c:13-15 | two chains that dominate each other elementwise, at any offset, still do after each is sorted on its own |
| `ShellSort.SwapKeepsChains` | c/old_practice/practice_srcs/sort_algo/shell_sort.c:13-15 | a shift by the gap moves elements inside one residue class only, so each class keeps its multiset |
| `ShellSort.Sink` | c/old_practice/practice_srcs/sort_algo/shell_sort.c:12-16 | the inner loop and its final assignment carry a[i] down its chain past every smaller element, as the recursive description says |
| `ShellSort.SunkInOrder` | c/old_practice/practice_srcs/sort_algo/shell_sort.c:12-16 | carrying a value down its chain completes the gap order up to and including position i |
| `ShellSort.SunkInChains` | c/old_practice/practice_srcs/sort_algo/shell_sort.c:12-16 | carrying a value down permutes inside residue classes only |
| `ShellSort.InsertAlongChain` | c/old_practice/practice_srcs/sort_algo/shell_sort.c:12-16 | sinking a[i] extends the gap order from i to i + 1 positions, permuting inside residue classes |
| `ShellSort.GapPass` | c/old_practice/practice_srcs/sort_algo/shell_sort.c:11-17 | a pass leaves the array ordered for its gap, a permutation, and still ordered for every gap it was ordered for before |
| `ShellSort.GapOneIsDescending` | c/old_practice/practice_srcs/sort_algo/shell_sort.c:10 | order at gap 1 is descending order |
| `ShellSort.Sort` | c/old_practice/practice_srcs/sort_algo/shell_sort.c:3-18 | the result is descending and a permutation; the gaps are cnt/2 halved down to 1; after each pass the array is ordered for that gap and all earlier ones |
| `InsertSort.Shift` | c/old_practice/practice_srcs/sort_algo/insert_sort.c:11-13 | the inner loop moves exactly the elements smaller than the carried one up by one place |
| `InsertSort.Insert` | c/old_practice/practice_srcs/sort_algo/insert_sort.c:10-14 | the sorted prefix grows by one, and the shifts made are the number of smaller elements before |
| `InsertSort.OutOfOrderStep` | c/old_practice/practice_srcs/sort_algo/insert_sort.c:9-15 | one more element adds as many out-of-order pairs as there are smaller elements before it |
| `InsertSort.Sort` | c/old_practice/practice_srcs/sort_algo/insert_sort.c:3-15 | the result is descending and a permutation, and the total number of shifts is the number of pairs p < q of the input with a[p] < a[q] |
| `SortSpec.Swap` | c/old_practice/practice_srcs/sort_algo/quick_sort.c:19-24 | exchanges two elements and nothing else |
| `RangeStack.CapacityBound` | c/old_practice/practice_srcs/sort_algo/quick_sort.c:33-40 | disjoint pending ranges of two or more positions: at most cnt/2 are on the stack (one, for cnt = 1) |
| `RangeStack.SettledAfterPartition` | c/old_practice/practice_srcs/sort_algo/quick_sort.c:64-73 | if pairs outside one pending range were in order, they still are after a range was rearranged, pushed parts taking its place |
| `RangeStack.PushedWellFormed` | c/old_practice/practice_srcs/sort_algo/quick_sort.c:70-73 | the pushed parts keep the stack sorted from left to right, disjoint and inside the array |
| `RangeStack.Advance` | c/old_practice/practice_srcs/sort_algo/quick_sort.c:39-73 | a round that partitions keeps order outside the pending ranges, the shape of the stack and its bound, and lowers the termination weight |
| `RangeStack.Drop` | c/old_practice/practice_srcs/sort_algo/quick_sort.c:42-44 | so does a round that drops a range of one position |
| `RangeStack.Push` | c/old_practice/practice_srcs/sort_algo/quick_sort.c:70-73 | the guarded pushes put exactly the ranges of two or more positions on the array of slots |
| `QuickSort.Scan` | c/old_practice/practice_srcs/sort_algo/quick_sort.c:46-62 | the two scans terminate in bounds; below the meeting point all elements are less than the pivot, above it none is |
| `QuickSort.Partition` | c/old_practice/practice_srcs/sort_algo/quick_sort.c:46-68 | the pivot ends at its place, smaller elements before it, the others after; nothing outside the range changes |
| `QuickSort.Round` | c/old_practice/practice_srcs/sort_algo/quick_sort.c:40-73 | a round of the stack loop keeps the loop invariant, permutes, and lowers the weight |
| `QuickSort.Sort` | c/old_practice/practice_srcs/sort_algo/quick_sort.c:26-74 | for cnt >= 1 the result is ascending and a permutation, every push fits the cnt slots, and the stack never exceeds cnt/2 ranges |
| `HoareSort.ScanRight` | c/old_practice/practice_srcs/sort_algo/test.c:38-39 | the scan without a bounds check stops at or before an element of at least mid, passing only smaller ones |
| `HoareSort.ScanLeft` | c/old_practice/practice_srcs/sort_algo/test.c:40-41 | the mirror image |
| `HoareSort.Sweep` | c/old_practice/practice_srcs/sort_algo/test.c:38-47 | if the loop goes round again, both ends moved and the two swapped elements are sentinels for the next scans |
| `HoareSort.Partition` | c/old_practice/practice_srcs/sort_algo/test.c:35-48 | start..right is at most the pivot, left..end at least, what lies between equals it, and both parts are shorter than the range |
| `HoareSort.Round` | c/old_practice/practice_srcs/sort_algo/test.c:31-57 | a round of the stack loop keeps the loop invariant, permutes, and lowers the weight |
| `HoareSort.Sort` | c/old_practice/practice_srcs/sort_algo/test.c:19-58 | for every length the result is ascending and a permutation, pushes fit, and the stack never exceeds len/2 ranges |
| `SortSpec.DescendingUnique` | c/old_practice/practice_srcs/sort_algo/shell_sort.c:3-18 | a descending permutation of an input is unique |
| `SortSpec.AscendingMirrorsDescending` | c/old_practice/practice_srcs/sort_algo/insert_sort.c:3-15 | an ascending and a descending permutation of one input are mirror images |
| `SortsAgree.Agree` | c/old_practice/practice_srcs/sort_algo/quick_sort.c:26-74 | what meets the four sorts' contracts on one input is one ascending array, twice, and its mirror image, twice |
| `SortsAgree.SortFourWays` | c/old_practice/practice_srcs/sort_algo/test.c:19-58 | applied to copies of one input, both quicksorts give the same array and Shell and insertion sort its exact reverse |
| `UdpPool.MutexKept` | c/old_practice/work_srcs/socket_udp/common/thread_pool/thread_pool.c:28-32 | every step keeps: the threads inside a critical section are exactly the one the mutex names |
| `UdpPool.TotalsAfter` | c/old_practice/work_srcs/socket_udp/common/thread_pool/thread_pool.c:28-66 | how each step changes the number of signals still due and of awake workers |
| `UdpPool.SleepersAfter` | c/old_practice/work_srcs/socket_udp/common/thread_pool/thread_pool.c:57-59 | only pthread_cond_wait makes a sleeper |
| `UdpPool.WakeupKept` | c/old_practice/work_srcs/socket_udp/common/thread_pool/thread_pool.c:28-60 | every step keeps the wakeup account, although the signal follows the unlock and wakeups may be spurious |
| `UdpPool.TaskKept` | c/old_practice/work_srcs/socket_udp/common/thread_pool/thread_pool.c:28-66 | every step keeps: a task is enqueued once by its own call, and once dequeued is with one worker or finished |
| `UdpPool.RunKeepsInv` | c/old_practice/work_srcs/socket_udp/common/thread_pool/thread_pool.c:18-69 | all of the above in every state of every run of any number of callers and workers |
| `UdpPool.NoTaskStranded` | c/old_practice/work_srcs/socket_udp/common/thread_pool/thread_pool.c:28-60 | in every reachable state with a sleeper, queued tasks <= signals not yet issued + awake workers heading to dequeue |
| `UdpPool.ExactlyOnceInOrder` | c/old_practice/work_srcs/socket_udp/common/thread_pool/thread_pool.c:28-66 | in every reachable state tasks left the queue in the order they entered, and each entered task is in exactly one of queue, one worker, finished |
| `UdpPool.EachCallHasItsTask` | c/old_practice/work_srcs/socket_udp/common/thread_pool/thread_pool.c:18-38 | in every run there is one task for each call of AddTaskToPool made, and no other |
| `UdpPool.SettlingStepsDescend` | c/old_practice/work_srcs/socket_udp/common/thread_pool/thread_pool.c:28-66 | every step the pool takes by itself, handlers returning included, lowers a rank |
| `UdpPool.PoolComesToRest` | c/old_practice/work_srcs/socket_udp/common/thread_pool/thread_pool.c:28-66 | without new calls and spurious wakeups any schedule, whether handlers return or not, comes to rest within Rank steps |
| `UdpPool.RestMeansServed` | c/old_practice/work_srcs/socket_udp/common/thread_pool/thread_pool.c:28-60 | no lost wakeup: a reachable pool at rest has its mutex free, all calls returned, and an empty queue unless every worker is busy |
| `UdpPool.RestMeansFinished` | c/old_practice/work_srcs/socket_udp/common/thread_pool/thread_pool.c:28-66 | with handlers that return and one worker at least, a reachable pool at rest has an empty queue and has finished the task of every call, once |
| `UdpPool.OneMoreCall` | c/old_practice/work_srcs/socket_udp/common/thread_pool/thread_pool.c:18-66 | from every reachable state of a pool with a worker one more call can be made and its task finished |
| `BroadcastPool.MutexKept` | c/old_practice/work_srcs/socket/common/thread_pool/thread_pool.c:18-23 | every step keeps mutual exclusion of callers and workers |
| `BroadcastPool.CountKept` | c/old_practice/work_srcs/socket/common/thread_pool/thread_pool.c:39-69 | every step keeps: cur_tasks_cnt is the queue length modulo 2^32, off by one only inside a critical section |
| `BroadcastPool.SleepKept` | c/old_practice/work_srcs/socket/common/thread_pool/thread_pool.c:39-67 | every step keeps: a sleeper implies an empty queue or a broadcast still to come under the lock |
| `BroadcastPool.SleepersAfter` | c/old_practice/work_srcs/socket/common/thread_pool/thread_pool.c:43-67 | only pthread_cond_wait makes a sleeper; a broadcast wakes all, a spurious wakeup one |
| `BroadcastPool.FreeAfter` | c/old_practice/work_srcs/socket/common/thread_pool/thread_pool.c:70-73 | a step frees the block of task x just when its worker comes past the handler and the task owns a copy of one byte or more |
| `BroadcastPool.TaskKept` | c/old_practice/work_srcs/socket/common/thread_pool/thread_pool.c:9-74 | every step keeps the stations of a task: enqueued once, queued, with one worker, handled, its copy freed |
| `BroadcastPool.CausalKept` | c/old_practice/work_srcs/socket/common/thread_pool/thread_pool.c:63-74 | every step keeps: dequeue after enqueue, handler call after dequeue, its return after the call, free after the return, and only blocks freed |
| `BroadcastPool.FifoKept` | c/old_practice/work_srcs/socket/common/thread_pool/thread_pool.c:40-65 | every step keeps: order of enqueue events = order of dequeue events + queue |
| `BroadcastPool.RunKeepsInv` | c/old_practice/work_srcs/socket/common/thread_pool/thread_pool.c:9-77 | all of the above in every state of every run |
| `BroadcastPool.FreeMutexMeansSettled` | c/old_practice/work_srcs/socket/common/thread_pool/thread_pool.c:18-69 | whenever the mutex is free the counter is the queue length (32 bits) and no worker sleeps beside a queued task |
| `BroadcastPool.FirstInFirstOut` | c/old_practice/work_srcs/socket/common/thread_pool/thread_pool.c:40-65 | in every reachable state tasks were dequeued in submission order |
| `BroadcastPool.ExactlyOnce` | c/old_practice/work_srcs/socket/common/thread_pool/thread_pool.c:9-74 | in every reachable state an enqueued task is in exactly one of queue, one worker, handled |
| `BroadcastPool.CallsAreSubmissions` | c/old_practice/work_srcs/socket/common/thread_pool/thread_pool.c:9-46 | in every run the tasks are the calls made, in order, each with what its caller passed |
| `BroadcastPool.HandlersGetTheirArgument` | c/old_practice/work_srcs/socket/common/thread_pool/thread_pool.c:14-70 | over every run a handler is called with what was submitted: the pointer passed to the first function; from the second a block of this call just when an argument was given and malloc succeeded; else NULL |
| `BroadcastPool.CopiesFreedOnceAfterUse` | c/old_practice/work_srcs/socket/common/thread_pool/thread_pool.c:26-74 | over every run a copied argument is freed at most once, after its handler, and until then only its worker owes the free (RestMeansDone: which is made); borrowed, absent and zero-size arguments are never freed |
| `BroadcastPool.FreeIsNeverStuck` | c/old_practice/work_srcs/socket/common/thread_pool/thread_pool.c:70-73 | in every reachable state a worker whose handler has returned can go on to the free |
| `BroadcastPool.HandlerIsNeverStuck` | c/old_practice/work_srcs/socket/common/thread_pool/thread_pool.c:68-70 | in every reachable state a worker with its task can go on to the handler |
| `BroadcastPool.SettlingStepsDescend` | c/old_practice/work_srcs/socket/common/thread_pool/thread_pool.c:9-77 | every step the pool takes by itself, handlers returning included, lowers a rank, although one broadcast wakes all sleepers |
| `BroadcastPool.PoolComesToRest` | c/old_practice/work_srcs/socket/common/thread_pool/thread_pool.c:9-77 | without new calls and spurious wakeups any schedule comes to rest within Rank steps |
| `BroadcastPool.RestMeansDone` | c/old_practice/work_srcs/socket/common/thread_pool/thread_pool.c:9-77 | no lost wakeup, no leak: a reachable pool at rest with one worker at least has an empty queue and a zero counter; the handler of every call has been called once and has returned once, and every owned copy was freed once |
| `BroadcastPool.OneMoreCall` | c/old_practice/work_srcs/socket/common/thread_pool/thread_pool.c:9-77 | from every reachable state of a pool with a worker any further call can be made, and its handler called with the right argument |
| `ServerPipeline.RouteMovesLine` | c/old_practice/work_srcs/socket_udp/server/server_udp/server_udp.c:107-120 | only a DataMsg joins the line of messages in flight, at its end |
| `ServerPipeline.FetchMovesLine` | c/old_practice/work_srcs/socket_udp/server/server_udp/server_udp.c:162-165 | moving a message from the queue to the buffer leaves the line as it is |
| `ServerPipeline.SubmitMovesLine` | c/old_practice/work_srcs/socket_udp/server/server_threadpool/server_threadpool.c:33-39 | so does moving the copy to the pool's queue |
| `ServerPipeline.OrderKept` | c/old_practice/work_srcs/socket_udp/server/server_udp/server_udp.c:118-174 | every step keeps: messages in flight carry consecutive acceptance numbers, up to the newest |
| `ServerPipeline.SkipImpossible` | c/old_practice/work_srcs/socket_udp/server/server_udp/server_udp.c:134-148 | the path for messages other than DataMsg is never taken |
| `ServerPipeline.WorkKept` | c/old_practice/work_srcs/socket_udp/server/server_udp/server_udp.c:125-151 | every step keeps: a message taken from the line is with one worker or delivered, and freed only once delivered |
| `ServerPipeline.FreedBlockIsUnshared` | c/old_practice/work_srcs/socket_udp/server/server_udp/server_udp.c:148 | the block about to be freed is referred to by no other task, queue or worker |
| `ServerPipeline.HeapKept` | c/old_practice/work_srcs/socket_udp/server/server_threadpool/server_threadpool.c:33-39 | every step keeps: each block a task refers to is live and holds the message as accepted, although the dispatcher reuses one buffer |
| `ServerPipeline.AddressKept` | c/old_practice/work_srcs/socket_udp/server/server_udp/server_udp.c:134-146 | every step keeps: an address in use was the newest of its destination at the lookup |
| `ServerPipeline.FaultNeedsStranger` | c/old_practice/work_srcs/socket_udp/server/server_udp/server_udp.c:139 | a lookup can only fail for a message accepted while its destination was unregistered |
| `ServerPipeline.RunKeepsInv` | c/old_practice/work_srcs/socket_udp/server/server_udp/server_udp.c:86-174 | all of the above in every state of every run |
| `ServerPipeline.EachMessageInOnePlace` | c/old_practice/work_srcs/socket_udp/server/server_udp/server_udp.c:118-174 | in every reachable state an accepted message is in exactly one of message queue, dispatcher, pool queue, one worker, delivered |
| `ServerPipeline.WaitInOrder` | c/old_practice/work_srcs/socket_udp/server/server_udp/server_udp.c:162-168 | in every reachable state messages wait for workers in the order of acceptance |
| `ServerPipeline.DeliveriesAreFaithful` | c/old_practice/work_srcs/socket_udp/server/server_udp/server_udp.c:134-146 | over every run a message is delivered at most once, unchanged; displayed if for the server, else sent to the newest address of its destination at lookup time |
| `ServerPipeline.NoUseAfterFree` | c/old_practice/work_srcs/socket_udp/server/server_udp/server_udp.c:139-148 | in every reachable state no task refers to a freed block, although blocks are reused |
| `ServerPipeline.KnownDestinationsNeverFault` | c/old_practice/work_srcs/socket_udp/server/server_udp/server_udp.c:139 | if every accepted message had a registered destination on arrival, no lookup follows NULL |
| `ServerPipeline.LookUpFaultsIffUnregistered` | c/old_practice/work_srcs/socket_udp/server/server_udp/server_udp.c:139 | a lookup follows NULL if and only if nobody has registered the destination |
| `ServerPipeline.UnregisteredDestinationFaults` | c/old_practice/work_srcs/socket_udp/server/server_udp/server_udp.c:118-139 | for every message to an unregistered ID there is a run that follows NULL |
| `ServerPipeline.OnlyWhatWasReceived` | c/old_practice/work_srcs/socket_udp/server/server_udp/server_udp.c:98-120 | in every reachable state the registry is who signed up with the server, newest first with the sender address, and the accepted messages are the data messages received, in order |
| `ServerPipeline.DrainingStepsDescend` | c/old_practice/work_srcs/socket_udp/server/server_udp/server_udp.c:65-174 | every step lowers a rank, also those by which recvfrom and read return, but for new notifications and datagrams |
| `ServerPipeline.ServerComesToRest` | c/old_practice/work_srcs/socket_udp/server/server_udp/server_udp.c:65-174 | with nothing new coming in any schedule comes to rest within Rank steps, whether recvfrom and read return or not |
| `ServerPipeline.RestMeansDelivered` | c/old_practice/work_srcs/socket_udp/server/server_udp/server_udp.c:118-174 | in a reachable state at rest where no lookup failed, an accepted message has been delivered, once, if and only if its task is not in the pool queue; and it can be there only while every worker is blocked in recvfrom or read |
| `ServerPipeline.MessageStarves` | c/old_practice/work_srcs/socket_udp/server/server_epoll/server_epoll.c:77-86 | that exception is real: for every message a run on one worker at rest with the message undelivered, since the worker waits for another datagram |
| `ServerPipeline.DrainedMeansDelivered` | c/old_practice/work_srcs/socket_udp/server/server_udp/server_udp.c:65-174 | and the only one: once every recvfrom and read has returned, a reachable server at rest with a worker and no failed lookup has no job left and has delivered every accepted message, once |
| `ServerPipeline.EachRegistrationAnswered` | c/old_practice/work_srcs/socket_udp/server/server_udp/server_udp.c:107-117 | in every reachable state each registration has been confirmed to its own address as often as it was made, but for those a worker is about to confirm |
| `ServerPipeline.RepliesToRegistered` | c/old_practice/work_srcs/socket_udp/server/server_udp/server_udp.c:107-117 | registrations are confirmed only to addresses that are in the registry |
| `ServerHistory.EachDatagramActedOn` | c/old_practice/work_srcs/socket_udp/server/server_udp/server_udp.c:95-120 | over every run, whatever one counts of the datagrams that recvfrom returned is the same of those acted on and those in the hands of workers: each is acted on once, with its message and its sender |
| `ServerHistory.RegistryAndAcceptancesAreArrivals` | c/old_practice/work_srcs/socket_udp/server/server_udp/server_udp.c:95-120 | so a client is registered under an address as often as it signed up from there, and a message accepted as often as it arrived, but for what workers have in hand |
| `ServerHistory.EachNotificationServed` | c/old_practice/work_srcs/socket_udp/server/server_epoll/server_epoll.c:77-86 | over every run each notification is queued, or a worker waits in its recvfrom or read, or that has returned |
| `ServerHistory.EachBlockAccountedFor` | c/old_practice/work_srcs/socket_udp/server/server_udp/server_udp.c:125-151 | in every reachable state each live copy of a message is with the dispatcher, queued, with a worker, or left over from a display, and there is no other |
| `ServerHistory.SentToNewestAtLookUp` | c/old_practice/work_srcs/socket_udp/server/server_udp/server_udp.c:139-146 | over every run a message that was sent went to the address that was the newest of its destination when this very message was looked up |
| `ServerHistory.RestMeansHandled` | c/old_practice/work_srcs/socket_udp/server/server_udp/server_udp.c:65-174 | at rest, if no lookup failed, clients are registered as they signed up and confirmed as often, messages are accepted as they arrived, and live blocks are those of messages queued or displayed |
| `ServerOnPool.StepKeepsTied` | c/old_practice/work_srcs/socket_udp/server/server_threadpool/server_threadpool.c:33-39 | every step of the server on the pool keeps: a task on its way into the queue is the copy the dispatcher submits, and only workers given a task are in a handler |
| `ServerOnPool.EnqueueRefines` | c/old_practice/work_srcs/socket_udp/common/thread_pool/thread_pool.c:31-33 | entering the task queue inside AddTaskToPool is, to the server, the hand-over of a notification or of the copied message |
| `ServerOnPool.DequeueRefines` | c/old_practice/work_srcs/socket_udp/common/thread_pool/thread_pool.c:55-66 | taking a task from the queue under the mutex is, to the server, an idle worker starting on the first job |
| `ServerOnPool.RunsThePool` | c/old_practice/work_srcs/socket_udp/common/thread_pool/thread_pool.c:18-69 | every run of the server on the pool is, seen from the pool, a run of UdpPool, step for step |
| `ServerOnPool.RunsTheServer` | c/old_practice/work_srcs/socket_udp/server/server_udp/server_udp.c:65-174 | and, seen from the server, a run of ServerPipeline, step for step: mutex, signals and sleeping workers add no behaviour |
| `ServerOnPool.ServerKeepsInv` | c/old_practice/work_srcs/socket_udp/server/server_udp/server_udp.c:65-174 | so the invariant of ServerPipeline holds in every reachable state |
| `ServerOnPool.NotificationsReachThePool` | c/old_practice/work_srcs/socket_udp/server/server_epoll/server_epoll.c:77-86 | over every run the tasks of the pool, messages apart, are the notifications of the epoll thread, in order, each by its own call of AddTaskToPool |
| `ServerOnPool.DrainingStepsDescend` | c/old_practice/work_srcs/socket_udp/server/server_udp/server_udp.c:65-174 | every step of server and pool together lowers a common rank, but for new notifications and datagrams and spurious wakeups |
| `ServerOnPool.SystemComesToRest` | c/old_practice/work_srcs/socket_udp/server/server_udp/server_udp.c:65-174 | from any reachable state any schedule without those comes to rest within Rank steps, whether recvfrom and read return or not |
| `ServerOnPool.RestOfServer` | c/old_practice/work_srcs/socket_udp/common/thread_pool/thread_pool.c:28-66 | no wakeup is lost to the server: when server and pool together can do nothing, neither could the server with a plain queue |
| `ServerOnPool.RestMeansDelivered` | c/old_practice/work_srcs/socket_udp/server/server_udp/server_udp.c:118-174 | at rest, if no lookup failed, an accepted message has been delivered, once, if and only if its task is not in the queue of the pool; it is there only while every worker of the pool is blocked in recvfrom or read |
| `ServerOnPool.DrainedMeansDelivered` | c/old_practice/work_srcs/socket_udp/server/server_udp/server_udp.c:65-174 | once every recvfrom and read has returned, a reachable system at rest with a worker and no failed lookup has an empty queue and has delivered every accepted message, once |
| `ServerOnPool.RestMeansHandled` | c/old_practice/work_srcs/socket_udp/server/server_udp/server_udp.c:65-174 | at rest, if no lookup failed, registrations, confirmations and acceptances are what arrived, and no block is live but those of messages queued or displayed |
| `ServerOnPool.OneMoreNotification` | c/old_practice/work_srcs/socket_udp/server/server_epoll/server_epoll.c:77-86 | from every reachable state, unless a lookup has failed, any further notification can be made and served |
| `ServerOnPool.MessageGetsThrough` | c/old_practice/work_srcs/socket_udp/server/server_udp/server_udp.c:86-151 | a run for every client and every data message to it or to the server: the client signs up and is confirmed, and the message is delivered |
| `IntrusiveList.InitListHead` | c/old_practice/work_srcs/socket/common/list.h:36-40 | makes an empty ring |
| `IntrusiveList.AddBetween` | c/old_practice/work_srcs/socket/common/list.h:49-57 | inserts a node after the k-th of any ring |
| `IntrusiveList.ListAdd` | c/old_practice/work_srcs/socket/common/list.h:72-75 | prepends to the list; only the three nodes' links named are written |
| `IntrusiveList.ListAddTail` | c/old_practice/work_srcs/socket/common/list.h:85-88 | appends to the list |
| `IntrusiveList.DelEntry` | c/old_practice/work_srcs/socket/common/list.h:110-113 | removes the node at any position, leaving its own links |
| `IntrusiveList.ListDel` | c/old_practice/work_srcs/socket/common/list.h:115-120 | removes the node and poisons its links |
| `IntrusiveList.ListReplace` | c/old_practice/work_srcs/socket/common/list.h:133-140 | the new node takes the old one's place in the ring, also when the old one is alone |
| `IntrusiveList.ListReplaceInit` | c/old_practice/work_srcs/socket/common/list.h:142-147 | and the old one becomes an empty ring, so an empty ring leaves two |
| `IntrusiveList.ListDelInit` | c/old_practice/work_srcs/socket/common/list.h:153-157 | removes the node and leaves it an empty ring |
| `IntrusiveList.ListMove` | c/old_practice/work_srcs/socket/common/list.h:164-168 | to the front of its own list or of a disjoint one, the rest of both in order |
| `IntrusiveList.ListMoveTail` | c/old_practice/work_srcs/socket/common/list.h:175-180 | to the end of its own list or of a disjoint one |
| `IntrusiveList.ListIsLast` | c/old_practice/work_srcs/socket/common/list.h:187-191 | true exactly for the last node |
| `IntrusiveList.ListEmpty` | c/old_practice/work_srcs/socket/common/list.h:197-200 | true exactly for a list without nodes |
| `IntrusiveList.ListEmptyCareful` | c/old_practice/work_srcs/socket/common/list.h:215-219 | true exactly for a list without nodes |
| `IntrusiveList.ListRotateLeft` | c/old_practice/work_srcs/socket/common/list.h:225-233 | the first node goes to the end; an empty list stays |
| `IntrusiveList.ListIsSingular` | c/old_practice/work_srcs/socket/common/list.h:239-242 | true exactly for a list of one node |
| `IntrusiveList.CutAfter` | c/old_practice/work_srcs/socket/common/list.h:244-254 | splits one ring into two, right after the entry |
| `IntrusiveList.ListCutPosition` | c/old_practice/work_srcs/socket/common/list.h:270-281 | the nodes up to entry go to list and the rest stay, for entry = head and the last one too; an empty list, or one node with a foreign entry, is left alone |
| `IntrusiveList.SpliceBetween` | c/old_practice/work_srcs/socket/common/list.h:283-295 | inserts all nodes of one ring after the k-th of a disjoint one |
| `IntrusiveList.ListSplice` | c/old_practice/work_srcs/socket/common/list.h:302-307 | all nodes to the front, in order |
| `IntrusiveList.ListSpliceTail` | c/old_practice/work_srcs/socket/common/list.h:314-319 | all nodes to the end, in order |
| `IntrusiveList.ListSpliceInit` | c/old_practice/work_srcs/socket/common/list.h:328-335 | the same, leaving an empty ring behind |
| `IntrusiveList.ListSpliceTailInit` | c/old_practice/work_srcs/socket/common/list.h:345-352 | the same at the end, leaving an empty ring behind |
| `IntrusiveList.ListIsUnique` | c/old_practice/work_srcs/socket/common/list.h:14-16 | the links determine the nodes and their order |
| `IntrusiveList.CutThenSplice` | c/old_practice/work_srcs/socket/common/list.h:244-307 | round trip: cutting a list with nodes at any entry and splicing back restores it, order and all |
| `IntrusiveList.CutThenSpliceEmpty` | c/old_practice/work_srcs/socket/common/list.h:270-307 | an empty list takes what was on the other one, so it is restored if and only if that one was empty |
| `FifoSpec.NothingLost` | c/old_practice/lib_srcs/lib_queue/seq/seq_queue.c:28-62 | in the reference queue, what was stored comes out in order and the rest is still there, for every sequence of calls and any capacity |
| `FifoSpec.RefusedOnlyWhenFull` | c/old_practice/lib_srcs/lib_queue/seq/seq_queue.c:28-62 | by the replies alone: a put is refused if and only if as much more was stored than got as there are places, and a get finds nothing if and only if all that was stored has been got |
| `FifoSpec.FailuresLeaveNoTrace` | c/old_practice/lib_srcs/lib_queue/link/link_queue.c:42-64 | without the failed calls, calls and answers are those of the reference queue that never fails |
| `ListQueue.Queue.constructor` | c/old_practice/work_srcs/socket/common/thread_pool/task_queue/task_queue.c:6-14 | an empty queue |
| `ListQueue.Queue.EnTaskQueue` | c/old_practice/work_srcs/socket_udp/common/thread_pool/task_queue/task_queue.c:34-48 | appends the item; all else keeps |
| `ListQueue.Queue.DeTaskQueue` | c/old_practice/work_srcs/socket_udp/common/thread_pool/task_queue/task_queue.c:50-68 | takes the first item, or reports an empty queue and changes nothing |
| `ListQueue.Queue.UnlinkFirst` | c/old_practice/work_srcs/socket_udp/common/thread_pool/task_queue/task_queue.c:64-65 | removes the first node and frees it, which was not free yet |
| `ListQueue.Queue.EnTaskToQueue` | c/old_practice/work_srcs/socket/common/thread_pool/task_queue/task_queue.c:16-29 | appends the item, or refuses a missing one and changes nothing |
| `ListQueue.Queue.Destroy` | c/old_practice/work_srcs/socket_udp/common/thread_pool/task_queue/task_queue.c:19-32 | terminates, taking out what was left in order and freeing every node and the head |
| `ListQueue.Drive` | c/old_practice/work_srcs/socket_udp/common/lcmsg/lcmsg_queue/lcmsg_queue.c:20-54 | any sequence of calls is answered as by the unbounded reference queue |
| `RegistrySpec.LookupIsNewest` | c/old_practice/work_srcs/socket_udp/server/clientinfo_list/clientinfo_list.c:73-82 | a lookup finds an address just when the ID is registered, and then the newest |
| `RegistrySpec.DeletePops` | c/old_practice/work_srcs/socket_udp/server/clientinfo_list/clientinfo_list.c:94-97 | deleting exposes the registration before it and touches no other ID |
| `RegistrySpec.StepAgrees` | c/old_practice/work_srcs/socket_udp/server/clientinfo_list/clientinfo_list.c:48-101 | the list and one stack of addresses per ID move together, and a lookup is the top of the stack |
| `ClientRegistry.CliInfoList.constructor` | c/old_practice/work_srcs/socket_udp/server/clientinfo_list/clientinfo_list.c:13-25 | an empty registry |
| `ClientRegistry.CliInfoList.AddNode` | c/old_practice/work_srcs/socket_udp/server/clientinfo_list/clientinfo_list.c:48-62 | the registration becomes the newest; the others keep their order |
| `ClientRegistry.CliInfoList.FindNode` | c/old_practice/work_srcs/socket_udp/server/clientinfo_list/clientinfo_list.c:64-85 | the walk along the links terminates at the first node of the ID, or nowhere just when there is none |
| `ClientRegistry.CliInfoList.GetAddress` | c/old_practice/work_srcs/socket_udp/server/clientinfo_list/clientinfo_list.c:103-106 | the newest address of the ID, if any |
| `ClientRegistry.CliInfoList.DelNode` | c/old_practice/work_srcs/socket_udp/server/clientinfo_list/clientinfo_list.c:87-101 | removes the newest registration of a present ID and no other |
| `ClientRegistry.CliInfoList.Unlink` | c/old_practice/work_srcs/socket_udp/server/clientinfo_list/clientinfo_list.c:96-100 | unlinks and frees one node, which was not free yet |
| `ClientRegistry.Drive` | c/old_practice/work_srcs/socket_udp/server/clientinfo_list/clientinfo_list.c:48-106 | any sequence of adds, deletes of present IDs and lookups is answered as by one stack of addresses per ID |
| `SeqQueue.WriteOneSlot` | c/old_practice/lib_srcs/lib_queue/seq/seq_queue.c:39-40 | a write of dataSize bytes at slot i stays inside the block and changes no other slot |
| `SeqQueue.AfterPut` | c/old_practice/lib_srcs/lib_queue/seq/seq_queue.c:34-41 | when not full, the slot at rear holds no item, and writing it appends one, across wraparound |
| `SeqQueue.AfterGet` | c/old_practice/lib_srcs/lib_queue/seq/seq_queue.c:52-59 | when not empty, the slot at front is the first item, and stepping over it leaves the rest |
| `SeqQueue.SeqQueue.constructor` | c/old_practice/lib_srcs/lib_queue/seq/seq_queue.c:9-26 | an empty queue with one slot more than places |
| `SeqQueue.SeqQueue.EnSeqQueue` | c/old_practice/lib_srcs/lib_queue/seq/seq_queue.c:28-44 | QUEUE_FULL exactly when queueLen items are stored, changing nothing; else the item is appended, writing one slot no item lay in |
| `SeqQueue.SeqQueue.DeSeqQueue` | c/old_practice/lib_srcs/lib_queue/seq/seq_queue.c:46-62 | QUEUE_EMPTY exactly when there is no item, changing nothing; else the first item is copied out, and no byte beyond it |
| `SeqQueue.Drive` | c/old_practice/lib_srcs/lib_queue/seq/seq_queue.c:9-62 | any sequence of calls is answered as by the reference queue of queueLen places |
| `LinkQueue.InitLinkQueue` | c/old_practice/lib_srcs/lib_queue/link/link_queue.c:10-36 | no queue for size 0, else an empty one |
| `LinkQueue.LinkQueue.constructor` | c/old_practice/lib_srcs/lib_queue/link/link_queue.c:20-35 | an empty queue with its one empty node |
| `LinkQueue.LinkQueue.Append` | c/old_practice/lib_srcs/lib_queue/link/link_queue.c:55-67 | the guard on the front node's data always lets the copy happen, since every node before the last has data |
| `LinkQueue.LinkQueue.EnLinkQueue` | c/old_practice/lib_srcs/lib_queue/link/link_queue.c:38-70 | appends the item; a wrong size or a failed allocation is an error that leaves the items, and only a failed data block drops a node |
| `LinkQueue.LinkQueue.DeLinkQueue` | c/old_practice/lib_srcs/lib_queue/link/link_queue.c:72-100 | takes the first item, freeing its node and its block, which were not free yet; errors and the empty case change nothing |
| `LinkQueue.LinkQueue.Destroy` | c/old_practice/lib_srcs/lib_queue/link/link_queue.c:102-121 | terminates with every node and block of the queue freed |
| `LinkQueue.Drive` | c/old_practice/lib_srcs/lib_queue/link/link_queue.c:38-121 | any sequence of calls, with any sizes, NULL arguments and failing allocations, is answered as by the unbounded reference queue on which failed calls have no effect; in the end every node and block of the queue is freed, and the nodes lost are as many as the calls whose data block failed |
| `Bytes.Memcpy` | c/old_practice/lib_srcs/lib_queue/seq/seq_queue.c:39-40 | replaces the bytes from the offset on and no others |
| `Checksum.SumBytes` | c/old_practice/work_srcs/socket_udp/common/lcmsg/lcmsg.c:76-81 | the loop computes how far the bytes are from zeros in sum, modulo 256 |
| `Checksum.SetCheckSum` | c/old_practice/work_srcs/socket_udp/common/lcmsg/lcmsg.c:74-86 | writes the distance of the body from zeros modulo 256, which makes the message consistent, and leaves the body |
| `Checksum.CheckCheckSum` | c/old_practice/work_srcs/socket_udp/common/lcmsg/lcmsg.c:88-102 | 1 exactly when the last byte is that distance |
| `Checksum.ZerosHaveChecksumZero` | c/old_practice/work_srcs/socket_udp/common/lcmsg/lcmsg.c:76-101 | a body of zeros has the checksum zero and no other |
| `Checksum.ConsistentByDistance` | c/old_practice/work_srcs/socket_udp/common/lcmsg/lcmsg.c:76-101 | a message is consistent if and only if its checksum is the distance of the body from zeros modulo 256 |
| `Checksum.AlteredBodyPasses` | c/old_practice/work_srcs/socket_udp/common/lcmsg/lcmsg.c:79-101 | an altered body still passes if and only if its byte differences sum to 0 modulo 256 |
| `Checksum.OneByteIsCaught` | c/old_practice/work_srcs/socket_udp/common/lcmsg/lcmsg.c:79-101 | every change of a single byte, body or checksum, is caught |
| `Checksum.SetAlterCheck` | c/old_practice/work_srcs/socket_udp/common/lcmsg/lcmsg.c:74-102 | set, alter, check: the verdict is 1 if and only if the differences sum to 0 modulo 256 |

## Left out

- bubble_sort.c and selection_sort.c: the first stops one pass short and does not sort, the second is correct but adds nothing beyond the other sorts.
- Printing loops, logging, menus, epoll, sockets, signal setup and build files: input/output and plumbing.
- Overflow of index sums in the sorts: positions are unbounded integers; negative counts cannot be expressed by an array.
- Creation, naming, cancellation and destruction of pool threads, and lazy initialisation of the global queues, registry and pools: runs start when these are complete.
- UDP curTaskCnt: it is changed outside the mutex, so nothing is claimed about it.
- Allocation failure of queue nodes in the pools and list queues: the sources follow the pointer unseen, so nodes are taken as allocated.
- ListQueue.Queue.EnTaskQueue: does not model a NULL task, for which the UDP and message queues store an uninitialised item; no caller passes one.
- SeqQueue.SeqQueue.constructor: does not model a failing calloc or a negative length.
- LinkQueue.InitLinkQueue: does not model a failing malloc, after which the source follows NULL.
- LinkQueue.Drive: sequential use only, since the library has no lock; the bytes of an item stored from NULL are whatever malloc returned.
- ServerPipeline.HeapKept: the malloc of the copy (server_threadpool.c:35-36) is taken to succeed; on a failure the source copies to NULL.
- BroadcastPool.HandlersGetTheirArgument: which pointer a handler gets, not the bytes that memcpy put behind it.
- What ProcessStdin reads, which it drops, and the copied file descriptors of the two epoll tasks, each freed at once.
- IntrusiveList.ListDel: the two poison addresses are both modelled as null.
- IntrusiveList.ListCutPosition: an entry that is not on the list is taken to be on some ring, so that its links can be named.
- IntrusiveList.ListReplaceInit: a node already on the ring is not covered, since its links would be overwritten.
- ServerPipeline.KnownDestinationsNeverFault: one direction only, since a destination may register between arrival and lookup; the exact condition at the lookup is LookUpFaultsIffUnregistered.
- ServerPipeline.DeliveriesAreFaithful: whether a sent datagram arrives, and the memory of displayed messages, which the source never frees.
- The removal of clients in a running server: the deletion function is proved on the registry, but the server never calls it.
- socket/common msg_queue (last in, first out as coded), the TCP programs, the clients and the SQLite wrapper: not part of this model.
- The macros of list.h other than list_for_each and list_entry, and its typed iteration variants.
