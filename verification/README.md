# Verified model of the Sparrow support library

The repository pairs a small AMQP server with a support library, and the library is where the hard promises
are. This project models nine parts of it in Dafny and proves what each part is for:

- **Thread pool** (`ThreadPool*.dfy`, on `Totals.dfy`): `threading/thread_manager.cc` as a transition system whose
  steps are single critical sections, with condition variables that wake at least one unsignalled waiter and with
  spurious wake-ups. Safety, conservation, absence of deadlock and termination of the shutdown hold over every run.
- **Pickle** (`PickleFormat.dfy`, `PickleWire.dfy`, `Pickle.dfy`, `PickleFrames.dfy`): the growable writer, the clamping reader, the size
  predictor, the read-only view over foreign bytes and the framing of pickles in a stream.
- **Pooled connections** (`ConnectionPool.dfy`; `Connections.dfy` and the files that prove it, `ConnectionLists.dfy`,
  `ConnectionSteps.dfy`, `PoolSteps.dfy`, `ConnectionRuns.dfy`): the timed list of idle connections and the life of
  reference-counted connections and pools, where the last release may put the object back into its pool.
- **Statement cache** (`StatementCache.dfy`): a map and a recency list that point into each other, refined to a list.
- **Paths** (`FilePath.dfy`, `FilePathLayouts.dfy`): the path algebra with its fixpoint loop over `DirName`.
- **Trees** (`FileTree.dfy`, `FileEnumerator.dfy`, `FileOperations.dfy`): the enumerator's pending stack and batch cursor,
  and the recursive deletion and size computation built on it.
- **Connection strings** (`StringTrimming.dfy`, `ConnectionInfo.dfy`, `ConnectionLayouts.dfy`): the parser of `db/common/connection_info.cc`.
- **Integers** (`Numbers.dfy`): the overflow-exact parsers of `base/numbers.cc`.
- **Once** (`Once.dfy`): the three-state once flag.

State that the source updates in place is a class with methods (`Pickle`, `PickleIterator`, `PickleSizer`, `Pool`,
`Data`, `FileEnumerator`, `Disk`, `ConnectionInfo`); each method is proved against a function of the old state, and the
promises are lemmas about those functions. Protocols between threads are step systems, and their promises are lemmas
over every run.

Where the code and its promise differ, the code is kept and the difference is proved:

- `RemoveNextPending` does not signal `max_monitor_`, and a producer with a time limit may use up a signal and still
  time out. Either can leave another producer blocked on an empty queue (`RemoveNextPendingStrandsProducer`,
  `TimedOutSignalStrandsProducer`). `Strands` says in which states these two steps do so; a step keeps blocked
  producers awaited if and only if it is not such a step, and no run without one is ever stuck.
- `Add` tests the pool's state only on entry, so a producer that was blocked when a join was requested can push a task
  nobody runs (`JoinMayStrandLateTask`). A joined pool has nothing pending when no producer was inside `Add` at the
  request, never more than there were such producers, and something exactly when a task was accepted after the last
  worker had left.
- The sweep of the connection pool stops at the first entry that has not expired. It removes exactly the expired entries
  if and only if none of them stands behind one that has not expired (`SweepExactness`). The clock is read before the
  lock is taken, so two calls can enter the lock with their readings in the other order, and then one can hide
  (`OutOfOrderPutsHideExpired`); `get` hands out an expired connection exactly when the last entry has expired and
  another has not.
- `GetComponents` keeps the dot of a path such as `./` and drops that of `.`; `Components` says so for every path.
- `DeleteFile` on the root of the file system empties it and then reports failure, because the root cannot be removed.
- The model is of the debug build, where a DCHECK that fails ends the program as a CHECK does; the parser of connection
  strings returns such a failure as its result, elsewhere the checks are preconditions. With DCHECK compiled out a
  repeated key of a connection string would replace the earlier value, and an unterminated quote would be read past the
  end of the string.

## Model

| member | source | states |
|---|---|---|
| `ThreadPool.ExpiredRun` | threading/thread_manager.cc:478-499 | The tasks dropped are the longest expired run at the head of the queue: all of them expired, the next one not |
| `ThreadPool.RemoveExpiredTasks` | threading/thread_manager.cc:478-499 | The loop splits the queue into a dropped prefix, all expired, and a rest whose head is not, for every clock reading |
| `ThreadPoolSafety.NotifyWorkersWakesAll` | threading/thread_manager.cc:378-384 | Signalling `idle_count_` times in a row leaves no worker asleep, whichever waiter each signal picks |
| `ThreadPoolSafety.WorkerLoopEffect` | threading/thread_manager.cc:219-251 | One turn of the worker loop exits exactly when inactive, sleeps exactly on an empty queue and otherwise shortens the queue, keeping `idle_count_` exact |
| `ThreadPoolSafety.StepKeepsInv` | threading/thread_manager.cc:180-448 | Every critical section of workers, producers and manager keeps the counters exact, the manager awaited and no wake-up lost |
| `ThreadPoolSafety.RunKeepsInv` | threading/thread_manager.cc:180-448 | That invariant holds in every state of every run |
| `ThreadPoolSafety.WakeupsAreNeverLost` | threading/thread_manager.cc:219-261 | While a worker sleeps unsignalled in a STARTED pool, pending tasks are at most the workers awake or signalled; a non-empty queue always has a worker that will look at it |
| `ThreadPoolTheorems.TasksAreConserved` | threading/thread_manager.cc:232-261 | Each accepted task is in exactly one place, tasks leave in acceptance order, none is started twice, and the queue keeps to a non-zero limit |
| `ThreadPoolTheorems.NeverStartsExpired` | threading/thread_manager.cc:232-241 | The only step that starts a task is a worker's, that task has not expired at the clock of that step, and whatever else left the queue then had |
| `ThreadPoolTheorems.StopIsRemembered` | threading/thread_manager.cc:339-356 | After a stop request its kind and the tasks accepted by then stay fixed for the rest of the run |
| `ThreadPoolOutcomes.WorkerTurn` | threading/thread_manager.cc:219-251 | A worker leaves exactly in a shutdown that is not a join with pending tasks, sleeps exactly on an empty queue before a shutdown, and otherwise drops the expired run at the head and starts the next task |
| `ThreadPoolOutcomes.RoomIsSignalled` | threading/thread_manager.cc:243-249 | It wakes a blocked producer exactly when it went to the queue and left less there than a non-zero limit |
| `ThreadPoolOutcomes.ShutdownStarts` | threading/thread_manager.cc:168-171 | With the worker maximum at 0 a task is started exactly by a worker of a JOINING pool that finds one not expired |
| `ThreadPoolOutcomes.StopStartsNothing` | threading/thread_manager.cc:339-366 | After a plain stop, once the worker maximum is 0, no task is ever started and every pending one stays pending |
| `ThreadPoolOutcomes.AddOutcome` | threading/thread_manager.cc:410-448 | Refused unless STARTED; else the task is accepted exactly when the queue without its expired head has room, and the caller waits or is refused |
| `ThreadPoolOutcomes.ProducerLeaves` | threading/thread_manager.cc:428-441 | A waiting producer leaves only with its task accepted or because its own time limit ran out, and keeps its limit and expiration meanwhile |
| `ThreadPoolOutcomes.TaskExpiry` | threading/thread_manager.cc:132-137 | A task accepted with expiration e at clock k is expired at a time exactly when e is not 0, k + e is not 0, and e has passed since k |
| `ThreadPoolOutcomes.HandsBackOldest` | threading/thread_manager.cc:460-476 | The oldest pending task of a STARTED pool, and nothing otherwise |
| `ThreadPoolOutcomes.DroppedHadExpired` | threading/thread_manager.cc:478-499 | Only worker turns and `Add` drop tasks, and only tasks expired at their clock |
| `ThreadPoolTheorems.JoinDrains` | threading/thread_manager.cc:339-366 | When a joined pool is STOPPED, each task accepted before the request has finished, expired or been handed back, and every worker is gone |
| `ThreadPoolJoin.LateStep` | threading/thread_manager.cc:419-441 | After a stop request accepted tasks and producers inside `Add` together never grow: only those inside can push, once each |
| `ThreadPoolJoin.JoinLeavesAtMost` | threading/thread_manager.cc:339-366 | A joined pool that is STOPPED has at most as many pending tasks as producers were inside `Add` at the request |
| `ThreadPoolJoin.JoinLeavesNothing` | threading/thread_manager.cc:339-366 | With every producer outside at the request, the queue ends empty and every task ever accepted has finished, expired or been handed back |
| `ThreadPoolJoin.JoinLeavesExactly` | threading/thread_manager.cc:264-274 | The queue of a joined pool that is STOPPED is empty if and only if no task was accepted after the last worker had left |
| `ThreadPoolProgress.StepKeepsProducersAwaited` | threading/thread_manager.cc:243-249 | A step keeps the promise that a blocked producer has a task or a woken producer before it if and only if it does not take the last task without a signal or time out with the only signal |
| `ThreadPoolProgress.RunKeepsProducersAwaited` | threading/thread_manager.cc:425-448 | In every run that promise holds throughout if and only if no step strands a producer |
| `ThreadPoolProgress.QuiescentPool` | threading/thread_manager.cc:207-274 | If nothing inside the pool can move, either all workers sleep on an empty queue or the pool is STOPPED with all workers gone |
| `ThreadPoolProgress.NoDeadlock` | threading/thread_manager.cc:410-448 | A STARTED pool in which nothing can move has no pending task, and no producer inside `Add` if and only if the producers are awaited; so none in any run without a step that strands |
| `ThreadPoolProgress.ShutdownShrinks` | threading/thread_manager.cc:207-274 | Once the worker maximum is 0, each real step lowers a measure over pending tasks, blocked producers and worker phases |
| `ThreadPoolProgress.ShutdownStays` | threading/thread_manager.cc:368-392 | Shutting down is never undone and no worker waits on `monitor_` again |
| `ThreadPoolProgress.SpuriousCosts` | threading/monitor.cc:106-132 | A spurious wake-up during the shutdown raises the measure by at most one |
| `ThreadPoolProgress.ShutdownMoves` | threading/thread_manager.cc:207-274 | Until `StopImpl` has returned, some thread inside the pool can take a step that changes something |
| `ThreadPoolProgress.ShutdownTerminates` | threading/thread_manager.cc:368-392 | In every run from a state of the shutdown the real steps number at most the measure plus the spurious wake-ups; another is possible until `StopImpl` returns, and then the pool is STOPPED with `worker_count_` 0 |
| `ThreadPoolLimits.RemoveNextPendingStrandsProducer` | threading/thread_manager.cc:460-476 | A run that ends with a producer blocked on an empty queue and nothing able to move |
| `ThreadPoolLimits.TimedOutSignalStrandsProducer` | threading/thread_manager.cc:429-435 | Another such run without that call: a timed producer takes the signal and times out |
| `ThreadPoolLimits.JoinMayStrandLateTask` | threading/thread_manager.cc:425-441 | A run that ends STOPPED with a task in the queue that was pushed after the join request |
| `PickleFormat.Align` | base/bits.h:37-40 | The result is at least the size and less than one alignment above it |
| `PickleFormat.AlignIsLeast` | base/bits.h:37-40 | The result is the least multiple of the alignment that is not below the size |
| `PickleFormat.MaskIsAlign` | base/bits.h:37-40 | For every power of two and every size that does not overflow 64 bits, the bitwise mask of the source computes that multiple |
| `PickleFormat.FromToLE` | base/pickle.h:203-206 | A number that fits a width is read back from its little-endian bytes |
| `PickleFormat.ReadBool` | base/pickle.cc:76-78 | One byte read where an int32 was written gives the boolean back |
| `PickleFormat.ReadEncoded` | base/pickle.cc:122-163 | A typed read at the place of the matching typed write returns its value and moves just past its padding, wherever it stands |
| `PickleFormat.RoundTrip` | base/pickle.cc:76-163 | Reading the kinds of any sequence of writes returns the values in order and ends at the end, where any fixed-size read fails |
| `PickleWire.WireOfInt16` | base/pickle.h:117-136 | The range of the 16-bit types and their wire bytes: two, lowest first, negatives in two's complement, then two zeros |
| `PickleWire.WireOfInt32` | base/pickle.h:125-137 | The range of the 32-bit types and their four bytes |
| `PickleWire.WireOfInt64` | base/pickle.h:133-138 | The range of the 64-bit types and their eight bytes |
| `PickleWire.WireOfBool` | base/pickle.h:114-116 | A bool is a 0 or 1 and three zeros |
| `PickleWire.WireOfFloat` | base/pickle.h:139-140 | A float is its four bytes and a double its eight |
| `PickleWire.WireOfText` | base/pickle.cc:270-279 | The length in four bytes, the bytes, and zeros up to a multiple of four |
| `PickleWire.WireOfRaw` | base/pickle.cc:281-284 | The bytes and zeros up to a multiple of four |
| `PickleWire.TakeMoves` | base/pickle.cc:35-64 | A read that fits returns the slice and passes its padding or stops at the end; any other fails and stops at the end |
| `Pickle.GrowthFactor` | base/pickle.cc:375-382 | Each growth is by a factor of at least 1.5 |
| `Pickle.ClaimKeepsAmortised` | base/pickle.cc:366-382 | A write keeps the capacity a multiple of 64, between the payload and twice it plus 4096, and all earlier capacities together at most twice the current one |
| `Pickle.AmortisedGrowth` | base/pickle.cc:366-389 | Over any sequence of writes all copying stays linear in the payload |
| `Pickle.GrowthRule` | base/pickle.cc:369-388 | Nothing grows while a write fits; else the capacity is doubled, to 64 short of whole pages above one page, or just holds the new size |
| `Pickle.Pickle.constructor` | base/pickle.cc:206-215 | A new pickle is empty, with one payload unit of capacity |
| `Pickle.Pickle.SetPayloadSize` | base/pickle.cc:386-386 | Only the four header bytes change |
| `Pickle.Pickle.Resize` | base/pickle.cc:298-304 | The capacity is rounded to 64, what fits of the buffer is kept, and so is the payload of a valid pickle if that fits |
| `Pickle.Pickle.ClaimBytes` | base/pickle.cc:366-389 | Room for the bytes behind the old payload, zero padding, header and offset moved together, the sizes as the growth rule says |
| `Pickle.Pickle.WriteField` | base/pickle.cc:391-397 | Appends exactly the padded bytes to the payload |
| `Pickle.Pickle.WriteText` | base/pickle.cc:270-284 | Appends the length and then the padded bytes |
| `Pickle.Pickle.Write` | base/pickle.h:114-144 | Each typed write appends exactly its encoding and keeps the amortised bound |
| `Pickle.Pickle.WriteAll` | base/pickle.h:114-144 | Any sequence of writes, through any number of growths, appends exactly the concatenated encodings |
| `Pickle.PickleIterator.constructor` | base/pickle.cc:17-21 | Reading starts at the front of the payload |
| `Pickle.PickleIterator.GetAndAdvance` | base/pickle.cc:35-64 | A read that does not fit, or of negative size, fails and moves to the end; any other returns the slice and passes its padding, never past the end |
| `Pickle.PickleIterator.ReadNumber` | base/pickle.cc:23-33 | The integer of that width at the cursor |
| `Pickle.PickleIterator.ReadText` | base/pickle.cc:122-155 | A length and that many bytes, or failure at either |
| `Pickle.PickleIterator.ReadValue` | base/pickle.cc:76-163 | Each typed read is the reference reading at the cursor |
| `Pickle.PickleIterator.ReadSequence` | base/pickle.cc:76-163 | A sequence of reads is the reference reading of the sequence |
| `Pickle.PickleSizer.AddBytes` | base/pickle.cc:180-182 | Adds the padded length |
| `Pickle.PickleSizer.Add` | base/pickle.h:71-82 | Adds exactly the length of what the same typed write appends |
| `Pickle.PickleSizer.AddAll` | base/pickle.h:71-82 | Over any sequence the predictor equals the payload size those writes produce |
| `Pickle.WriteAndRead` | base/pickle.cc:122-191 | Any sequence of values written into a new pickle is read back from it, the next fixed-size read fails, and the predictor gives the payload size |
| `PickleFrames.ViewIsExact` | base/pickle.cc:217-233 | With its modulo 2^32 subtraction the view is empty, or header and payload fill the buffer exactly; it is non-empty exactly when the stored size is smaller than the buffer and leaves an aligned header |
| `PickleFrames.ReadsStayInside` | base/pickle.cc:55-64 | Whatever is read from a view is a slice of the payload of the foreign buffer |
| `PickleFrames.FindNext` | base/pickle.cc:320-331 | A boundary found lies behind the header and inside the buffer |
| `PickleFrames.ImageIsFrame` | base/pickle.h:105-110 | The bytes a pickle hands out are a header and its payload |
| `PickleFrames.ViewOfImage` | base/pickle.cc:217-233 | A pickle's bytes viewed read-only give its header size and payload back |
| `PickleFrames.FindsFrame` | base/pickle.cc:320-356 | The end of a whole pickle is found whatever follows it |
| `PickleFrames.RefusesPrefix` | base/pickle.cc:320-356 | No strict prefix of a pickle is taken for one |
| `PickleFrames.SplitRecovers` | base/pickle.cc:320-356 | Over pickles laid end to end and then one cut short, repeated `FindNext` recovers every boundary and stops at the cut |
| `ConnectionPool.StaleRun` | db/common/connection_pool.cc:56-69 | The sweep takes the longest expired run at the front |
| `ConnectionPool.Pool.constructor` | db/common/connection_pool.cc:21-27 | A new pool is empty |
| `ConnectionPool.Pool.SweepFront` | db/common/connection_pool.cc:56-69 | The loop moves exactly that run to the garbage list and keeps `size_` equal to the length |
| `ConnectionPool.Pool.Get` | db/common/connection_pool.cc:47-77 | The list, the garbage and the connection returned are those of the specification, and `size_` stays exact |
| `ConnectionPool.Pool.Put` | db/common/connection_pool.cc:79-116 | The list and the garbage are those of the specification, `size_` stays exact and within the limit |
| `ConnectionPool.Pool.Clear` | db/common/connection_pool.cc:122-129 | Everything becomes garbage |
| `ConnectionPool.SweepExactness` | db/common/connection_pool.cc:96-107 | The sweep leaves exactly the unexpired entries if and only if no expired entry stands behind an unexpired one |
| `ConnectionPool.SortedSweepsExactly` | db/common/connection_pool.cc:96-107 | On a list sorted by last use the sweep removes exactly the expired entries |
| `ConnectionPool.SweepByAge` | db/common/connection_pool.cc:96-107 | On a sorted list exactly the entries idle for at most the life time are kept |
| `ConnectionPool.GetIsMostRecent` | db/common/connection_pool.cc:47-77 | On a sorted list `get` returns the most recently returned unexpired connection, and none only when there is none |
| `ConnectionPool.GetHandsOutLast` | db/common/connection_pool.cc:47-77 | On any list `get` returns the last entry if some entry has not expired and none otherwise; so an expired one exactly when the last has expired and another has not |
| `ConnectionPool.PutKeepsMostRecent` | db/common/connection_pool.cc:79-116 | Put keeps the most recent unexpired entries up to the limit, the new one included; a collection keeps all unexpired ones |
| `ConnectionPool.PutIsLast` | db/common/connection_pool.cc:89-94 | A connection just put is the last entry, if the limit is positive and the life time not negative |
| `ConnectionPool.RunStaysTidy` | db/common/connection_pool.cc:47-129 | Over any calls with non-decreasing clocks the list stays sorted and within the limit, so every sweep is exact |
| `ConnectionPool.OutOfOrderPutsHideExpired` | db/common/connection_pool.cc:85-107 | Two puts whose clocks enter the lock out of order leave an expired entry behind a fresh one, which the sweep misses |
| `PoolSteps.StepKeepsInv` | base/ref_counted.h:105-112 | Each step of open, copy, assign, release, dispose, put, collect and clear keeps counts equal to the references that exist and lists disjoint |
| `ConnectionRuns.RunKeepsInv` | base/ref_counted.h:163-255 | That invariant holds in every state of every run |
| `ConnectionRuns.ConnectionLifecycle` | db/backend/db_connection.cc:29-43 | A pooled connection has count 1 and no back-pointer, a connection that refers to a pool keeps it alive, a deleted one is neither referenced nor pooled, and none is deleted twice |
| `ConnectionRuns.NothingLeaks` | db/backend/db_connection.cc:29-52 | When all references are gone and no release is under way, every pool and every connection has been deleted: no cycle keeps them |
| `ConnectionRuns.DisposeDecides` | db/backend/db_connection.cc:29-43 | In every run a disposed connection is deleted exactly when it has no pool or is not recyclable; else it is on its way back to that pool |
| `ConnectionRuns.RecycledIsPooled` | db/backend/db_connection.cc:33-36 | A recyclable one ends as the last entry of its pool: live, one reference, no back-pointer, not deleted |
| `ConnectionRuns.NoRoomDeletes` | db/common/connection_pool.cc:80-83 | A pool with limit 0 deletes what is put into it |
| `ConnectionRuns.ObjectFields` | db/backend/db_connection.cc:50-52 | New connections and pools have the stated fields, and the setters change only theirs |
| `ConnectionRuns.ListSteps` | db/common/connection_pool.cc:118-129 | Clear empties the list, a collection leaves the unexpired entries, get takes the most recent, and the thread holds whatever left |
| `ConnectionRuns.SelfAssignmentIsHarmless` | base/ref_counted.h:215-225 | Adding the new reference before dropping the old one makes self-assignment change nothing |
| `ConnectionRuns.ReleaseFirstWouldDispose` | base/ref_counted.h:215-225 | In the other order the last reference would be disposed of before it could be copied |
| `StatementCache.Data.constructor` | db/backend/db_statement.cc:39-39 | A new cache is empty |
| `StatementCache.Data.Insert` | db/backend/db_statement.cc:41-61 | Map, list, cross-pointers and counter stand for the recency list with the statement in front, its old entry or the oldest one dropped |
| `StatementCache.Data.Fetch` | db/backend/db_statement.cc:63-74 | Returns the statement of that query, if any, and takes it off the recency list |
| `StatementCache.Data.Clear` | db/backend/db_statement.cc:76-80 | The recency list is empty |
| `StatementCache.RunKeepsWellFormed` | db/backend/db_statement.cc:41-80 | Over any calls the queries are distinct and at most max(1, `max_size`) |
| `StatementCache.InsertEffect` | db/backend/db_statement.cc:41-61 | The inserted statement is found, every other query as before but for the oldest when a new one meets a full cache, for every maximum |
| `StatementCache.RecentStatementsStay` | db/backend/db_statement.cc:41-74 | A statement not fetched or cleared since is still found after insertions of fewer than `max_size` distinct other queries |
| `FilePath.StripTrailingSeparatorsInternal` | base/file_path.cc:411-424 | A bare "//" and the empty path stay, any other run of separators becomes "/", and otherwise exactly the trailing separators go |
| `FilePath.NamedPath` | base/file_path.cc:200-245 | `BaseName` of a path that names something is its last segment, `DirName` is what stands before it, stripped |
| `FilePath.NamelessPath` | base/file_path.cc:200-245 | Both are the root marker for a path of separators only |
| `FilePath.GoingUpEnds` | base/file_path.cc:200-225 | `DirName` shortens a path, or turns a one-letter name into "."; so iterating it ends |
| `FilePath.SegmentsOfNamed` | base/file_path.cc:200-245 | Going up takes away exactly the last segment |
| `FilePath.GetComponents` | base/file_path.cc:121-153 | Ends on every path with the root marker and the non-empty segments of an absolute path, or the segments of a relative one without a first "." |
| `FilePath.WalkIsComponents` | base/file_path.cc:132-145 | What the loop over `DirName` collects is that, segment by segment |
| `FilePath.ReferencesParent` | base/file_path.cc:426-437 | True exactly when some segment is "..", for every path |
| `FilePathLayouts.LayoutOf` | base/file_path.cc:121-153 | Every path is a run of separators and then names with runs of separators behind them |
| `FilePathLayouts.SegmentsOfPath` | base/file_path.cc:121-153 | The segments of such a path are its names |
| `FilePathLayouts.AbsoluteComponents` | base/file_path.cc:121-153 | Components of an absolute path: "//" for two or three separators before a name or a bare "//", else "/", and the names |
| `FilePathLayouts.RelativeComponents` | base/file_path.cc:121-153 | Components of a relative path: the names without a first ".", but for "." with separators behind it |
| `FilePathLayouts.DirAndBase` | base/file_path.cc:200-245 | Stripping takes the last run; `BaseName` is the last name; `DirName` is the path up to the name before it, the root, or "." |
| `FileEnumeration.Disk.ReadDirectory` | base/file_enumerator.cc:124-156 | Lists ".", ".." and each child once, in an order of its own; fails on anything but a directory |
| `FileEnumeration.FileEnumerator.constructor` | base/file_enumerator.cc:39-48 | What is to come is every wanted entry below the root path |
| `FileEnumeration.FileEnumerator.ReadBatch` | base/file_enumerator.cc:85-107 | The loop over a listing keeps the wanted entries and pushes the directories, without "." and ".." |
| `FileEnumeration.FileEnumerator.OpenNext` | base/file_enumerator.cc:77-107 | Reading a pending directory leaves what is to come unchanged and what the stack covers strictly smaller |
| `FileEnumeration.FileEnumerator.Next` | base/file_enumerator.cc:69-112 | Returns one entry of those to come and takes it from them, parents before children; returns the empty path exactly when none is to come |
| `FileEnumeration.RemovalKeepsInv` | base/file_enumerator.cc:69-112 | Removing a file that has been returned disturbs neither the cursor nor what is to come |
| `FileEnumeration.EnumerateAll` | base/file_enumerator.cc:69-112 | Calling `Next` until the empty path returns each wanted entry below the root exactly once, and nothing after something it leads to |
| `FileOperations.DeleteFilesIn` | base/file_util.cc:207-219 | Every unlink succeeds; afterwards exactly the noted directories are left below the path, parents noted before children |
| `FileOperations.LastIsEmpty` | base/file_util.cc:221-225 | The directory on top of the stack has been emptied |
| `FileOperations.DeleteDirectories` | base/file_util.cc:221-226 | Every rmdir is on an emptied directory, nothing of the subtree is left and nothing else is touched |
| `FileOperations.DeleteFile` | base/file_util.cc:194-227 | A missing path, a file, a directory that must be empty and a whole subtree: what is left and what is reported |
| `FileOperations.ComputeDirectorySize` | base/file_util.cc:43-50 | The sum of the sizes of all files below the path |
| `FileOperations.SizeByChild` | base/file_util.cc:43-50 | That sum is recursive: taking a child away takes its own size and that of its subtree |
| `FileOperations.SizeOfNothing` | base/file_util.cc:43-50 | An empty directory has size 0 |
| `StringTrimming.TrimString` | base/string_util.cc:106-137 | The trimmed text, and whether anything changed |
| `StringTrimming.TrimUndoesPadding` | base/string_util.cc:106-131 | Whatever white space is put around a trimmed text, trimming gives it back |
| `StringTrimming.TrimIsPadded` | base/string_util.cc:106-131 | The result is trimmed and only white space was taken from around it |
| `StringTrimming.SkipWhite` | db/common/connection_info.cc:39-42 | The loop stops at the first character that is not white space |
| `ConnectionString.ReadQuoted` | db/common/connection_info.cc:46-63 | The loop reads the quoted value of the grammar, or finds it unterminated |
| `ConnectionString.ReadValue` | db/common/connection_info.cc:37-77 | Quoted, bare up to ';', or missing: the value of the grammar and the position after it |
| `ConnectionString.SkipSeparator` | db/common/connection_info.cc:82-90 | Passes white space and one more character |
| `ConnectionString.ConnectionInfo.Init` | db/common/connection_info.cc:21-92 | Driver, properties and each failure are those of the grammar; each turn of the loop moves forward |
| `ConnectionLayouts.RoundTrip` | db/common/connection_info.cc:21-92 | Any driver without ':' and any properties with distinct trimmed keys without '=', quoted with doubled quotes or bare, with any white space between the parts and any separator a quoted value allows, are read back exactly |
| `ConnectionLayouts.RoundTripOpen` | db/common/connection_info.cc:64-77 | The same with a last property, quoted or bare, that has no separator behind it |
| `ConnectionLayouts.RepeatedKeyIsRefused` | db/common/connection_info.cc:79-81 | In the debug build a repeated key is refused wherever its two properties stand and whatever follows |
| `ConnectionLayouts.StrayTextIsRefused` | db/common/connection_info.cc:30-32 | Text behind the properties without '=' is refused, white space included |
| `ConnectionLayouts.OpenQuoteIsRefused` | db/common/connection_info.cc:47-49 | A quoted value that is not closed is refused |
| `ConnectionLayouts.NoDriverIsRefused` | db/common/connection_info.cc:25-26 | A string is refused for want of a driver exactly when it has no ':' |
| `Numbers.SafeParsePositiveInt` | base/numbers.cc:482-512 | The value is that of the longest valid-digit prefix, clamped to the maximum; success exactly when all are digits and it fits; no intermediate value overflows |
| `Numbers.SafeParseNegativeInt` | base/numbers.cc:515-548 | The same at the minimum, with the truncating division of C++ |
| `Numbers.SafeParseSignAndBase` | base/numbers.cc:426-479 | The sign, base and digits of the trimmed text, or a refusal |
| `Numbers.LiteralHead` | base/numbers.cc:426-479 | Every literal of the grammar is split into the sign, base and digits it was written with |
| `Numbers.HeadLiteral` | base/numbers.cc:426-479 | Whatever is accepted with only digits left is a literal of the grammar |
| `Numbers.HeadDenotes` | base/numbers.cc:426-479 | A text denotes a number exactly when its head was accepted, only digits follow, and the value fits |
| `Numbers.SafeIntInternal` | base/numbers.cc:550-562 | Success exactly on a literal whose mathematical value fits, with that value; otherwise 0, the valid-digit prefix or the saturated bound |
| `Numbers.SafeUintInternal` | base/numbers.cc:564-572 | The same for unsigned types, where every minus sign is refused |
| `Numbers.SafeStrTo32Base` | base/numbers.cc:577-579 | At the bounds of int32 |
| `Numbers.SafeStrTo64Base` | base/numbers.cc:581-583 | At the bounds of int64 |
| `Numbers.SafeStrToU32Base` | base/numbers.cc:585-587 | At the bounds of uint32 |
| `Numbers.SafeStrToU64Base` | base/numbers.cc:589-591 | At the bounds of uint64 |
| `Numbers.PrefixIsRead` | base/numbers.cc:482-548 | A literal with something behind it that is no digit is read as that literal |
| `Numbers.NumberRoundTrip` | base/numbers.cc:405-572 | Every number of the type, written with the digits of any base from 2 to 36, letters in either case and mixed, any spaces around it and a plus sign if not negative, is read back |
| `Once.StepKeepsInv` | base/once.cc:15-35 | Each atomic access keeps: at most one thread in the closure, one exactly while the flag is 1, and no return before a completion |
| `Once.RunKeepsInv` | base/once.cc:15-35 | That invariant holds in every state of every run of any number of threads |
| `Once.OnceOnly` | base/once.cc:15-35 | The closure starts at most once and every call returns after a completion |
| `Once.LogTells` | base/once.cc:15-35 | A thread leaves its call exactly when it logs a return, and then the closure has completed; it enters and leaves the closure exactly when it logs a start and a completion |
| `Once.FlagOnlyAdvances` | base/once.cc:22-29 | The flag only moves from 0 to 1 and from 1 to 2 |
| `Once.CallsEnd` | base/once.cc:15-35 | Each step inside a call brings its end nearer, except a turn of the spin loop, and then another thread is in the closure or about to store |

## Left out

- ConnectionLayouts.RepeatedKeyIsRefused: speaks of the debug build only; with DCHECK compiled out the source overwrites the value.
- Partial `RemoveWorker` and resizes that overlap: a worker decides to exit under one mutex and is counted out under another, so two can retire for one removal; the pool here has one `AddWorker` and one full stop.
- A second concurrent `Stop` or `Join`, which sets STOPPED without waiting.
- The timed acquisition of the mutex by `Add`, its exception for a lock timeout, and exceptions thrown by the expiry callback.
- Liveness under a fair scheduler: the pool's progress is stated as absence of stuck states and as a bound on real steps; runnables and closures are taken to return. A waiter that a signal has picked may still report its timeout.
- Memory orders, pthread wrappers, thread-local storage and the thread factory: steps are atomic.
- Clock readings are parameters, and so are the picks of a condition variable and the order of a directory listing.
- The copy constructor and assignment of `Pickle`, `Reserve`, the public `ClaimBytes` that zeroes its bytes, and the overload that reads several elements; `realloc` is taken to succeed.
- Floating-point values in a pickle are their bytes; the host is little-endian with a 64-bit `size_t`.
- Moves and swaps of `scoped_ref_ptr` are not steps of their own: they change which variable holds a reference, not how many there are.
- Connecting in `Open` and clearing a connection's own cache: foreign calls of the database driver.
- `DBStatementCache::SetSize`, `IsActive` and `Put` and `DBStatement::Dispose`: `SetSize` never takes effect and `Dispose` returns early for every statement; the cache has its maximum size as a parameter.
- `ConnectionManager`: its lookup of an existing pool and its collecting loop keep no useful invariant.
- The cut of a path at a NUL character, drive letters, and the operations on extensions and appended components.
- In the trees a path is its list of names, there are no symbolic links, permissions or other processes, and name patterns and INCLUDE_DOT_DOT are not modelled; sizes are unbounded instead of 64-bit.
- `Get` of a connection property as a number, which rests on the C++ stream library.
- `StringAsValue` for 16-bit types, which narrows without a range check, and all floating-point parsing.
- Hex and UTF-8 coding, `ReplaceAll`, `Status`, time conversions, character tables and the `StringPiece` searches: short cases that would only add easy members.
- The MySQL driver, the gRPC and AMQP services, `File`, temporary files and the `main` programs.
