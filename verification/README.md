# openmi base library: verification

Dafny models of the stateful and arithmetic core of the openmi base library, with proofs of what it
is there for. `dafny verify dfyconfig.toml` checks everything.

- **Asynchronous logging.** Any number of producers append to a buffer; one consumer swaps buffers
  with them and writes. `AsyncLoggingProtocol` is the transition system of all interleavings,
  `AsyncLogging` the two classes with one method for each step, over buffer objects with byte arrays
  of their own. No log text is lost, repeated or reordered, no assert of the consumer fails, and the
  four buffers are recycled forever, each with one owner at a time. One branch of
  `AsyncLogging::Append` has no meaning (base/async_logging.h:149 calls `Reset()` through a pointer
  that has just been moved from); it is kept as it is, and it is proved exactly when a call avoids it.
- **Thread pool.** `ThreadPoolLocking` has a program counter for every worker, caller of `AddTask`
  and caller of `Stop`, and a mutex with a holder. It refines `ThreadPoolProtocol`, in which a
  critical section is one step and notifications are still on their way after it. No wakeup is lost,
  every accepted task is run exactly once, and after `Stop` the pool drains and all workers exit.
  `ThreadPools` and `BlockingQueues` are the classes.
- **Blocking queues.** `BlockingQueueProtocol` has any number of pushing and taking threads, with and
  without a capacity.
- **MurmurHash3.** `WordPrograms` shows that straight-line programs of invertible statements permute
  the machine words. `HashMurmur3` proves that the loops run such a program, made from the key, on
  the seed, and derives which keys and seeds can never collide. `HashReference` says once more in
  plain arithmetic what is computed, with known values. `MachineWords` holds the arithmetic.
- **SArray.** `SArrays` is a class over shared heap arrays, proved against sequences with exact
  frames, so that what segments and copies of one array see of each other is stated.
- **Log files.** `LogRolling` takes any readings of a clock and any answers about the file's
  existence through any run of writes and rolls; `LogFiles` is the class. `LogFanOut` sends a message
  to the files of its severity, asynchronously and synchronously.
- **Split.** `DStrings` is the `getline` loop, with the round trips between printing and splitting.

Where a method changes an object, its contract equates the new state with a function of the old one
(a step of the protocol, or a sequence), and the theorems are about that function and all its runs.

Where comments and code differ, the code is followed: `SArray::resize` fills new elements with the
given value also when they fit the capacity (base/sarray.h:188-193, against the comment above it), and
the existence of the log file is tested on every write in an even second (base/logging.cc:468-475),
not once in two seconds.

## Model

| member | source | states |
|---|---|---|
| AsyncLoggingProtocol.SpareGoneIffFullBufferWaits | base/async_logging.h:139-217 | in every state of every interleaving the spare buffer is absent exactly when a full buffer waits, a current buffer exists, and every spare is empty |
| AsyncLoggingProtocol.ConsumerAssertsHold | base/async_logging.h:166-217 | none of the consumer's asserts can fail, and until it has exited its next step is defined |
| AsyncLoggingProtocol.OutputIsPrefixOfLog | base/async_logging.h:139-220 | over every run: output, then what the consumer holds, then what producers handed over or are filling, is the concatenation of the messages shorter than a buffer, in Append order; so the output is a prefix of it |
| AsyncLoggingProtocol.LossAtExit | base/async_logging.h:166-220 | once the consumer has exited, the log lacks exactly the texts in `buffers_` and `current_buf_` |
| AsyncLoggingProtocol.FourBuffersAndNoDrop | base/async_logging.h:139-217 | exactly four buffers exist, each owned by one place; a swap yields at most two, so the dropping of more than 25 never happens |
| AsyncLoggingProtocol.RecycleKeepsOwners | base/async_logging.h:198-216 | recycling destroys no buffer and duplicates none, although it ends with `clear()` |
| AsyncLoggingProtocol.AppendDefinedIff | base/async_logging.h:139-154 | in every reachable state, Append has a meaning if and only if the message fits into the current buffer or no full buffer waits |
| AsyncLoggingProtocol.AppendCanBeUndefined | base/async_logging.h:139-154 | three messages that fit alone but not in pairs reach the meaningless branch when the consumer does not swap in between |
| AsyncLoggingProtocol.StepKeepsShape | base/async_logging.h:139-217 | every step of any thread keeps the coupling between the producers' buffers and the consumer's |
| AsyncLoggingProtocol.StepKeepsOwners | base/async_logging.h:139-217 | no step changes how often any buffer is owned |
| AsyncLoggingProtocol.StepConserves | base/async_logging.h:139-217 | no step loses, repeats or reorders log text |
| AsyncLoggingProtocol.StepKeepsInv | base/async_logging.h:139-220 | the whole invariant survives every step |
| AsyncLoggingProtocol.RunKeepsInv | base/async_logging.h:139-220 | the whole invariant survives every run |
| AsyncLoggingProtocol.StopIsBounded | base/async_logging.h:89-95 | after `stop_` is set the consumer takes at most seven more steps, whatever the producers do, so the join returns |
| AsyncLoggingProtocol.ExitedMeansStopped | base/async_logging.h:166 | the consumer runs until `stop_` is set: wherever it has exited, the logger has been stopped |
| AsyncLoggingProtocol.HistoryIsTheCalls | base/async_logging.h:89-154 | over any run the history is the messages of the calls of Append, in their order, and `stop_` is set exactly if Stop was called |
| AsyncLoggingProtocol.SwapDeliversEverything | base/async_logging.h:171-217 | everything appended before a swap is in the output by the time the consumer is outside its writing section again, under any interleaving |
| AsyncLoggingProtocol.StepDelivers | base/async_logging.h:139-217 | while not stopped, each step of the consumer comes closer to having written any given part of the log, and no producer puts it back |
| AsyncLoggingProtocol.RunDelivers | base/async_logging.h:139-217 | over any run without Stop, the number of consumer steps bounds what is left to be written |
| AsyncLoggingProtocol.DeliveryWhileRunning | base/async_logging.h:166-217 | while nobody stops the logger, ten steps of the consumer after any state bring everything appended before into the output, however the producers interleave |
| AsyncLogging.DataBuffer.constructor | base/async_logging.h:22-24 | a new buffer holds no text |
| AsyncLogging.DataBuffer.Avail | base/async_logging.h:43 | the bytes left are the size less the text held |
| AsyncLogging.DataBuffer.Append | base/async_logging.h:28-33 | in the byte array: the message is added behind the text if a byte stays free, and dropped whole otherwise |
| AsyncLogging.DataBuffer.Reset | base/async_logging.h:47 | the buffer is empty again and keeps its identity |
| AsyncLogging.AsyncLogging.constructor | base/async_logging.h:117-165 | four new buffers, each with memory of its own, two on each side: the initial state of the protocol |
| AsyncLogging.AsyncLogging.OneOwner | base/async_logging.h:107-109 | a buffer object that is held somewhere is held nowhere else |
| AsyncLogging.AsyncLogging.NobodyShares | base/async_logging.h:107-165 | in every state the threads can reach, no two of the pointers and list entries lead to the same buffer object |
| AsyncLogging.AsyncLogging.FillCurrent | base/async_logging.h:142 | writing the bytes of a message into the current buffer changes no other buffer |
| AsyncLogging.AsyncLogging.HandOver | base/async_logging.h:144-147 | the full buffer object moves to the end of `buffers_` and the spare takes its place; no byte is copied |
| AsyncLogging.AsyncLogging.Append | base/async_logging.h:139-154 | one Append step of the protocol on the buffer objects; the pointers rotate exactly when the message leaves no byte free in the current buffer; the history gains this message |
| AsyncLogging.AsyncLogging.Stop | base/async_logging.h:89-93 | one Stop step of the protocol, and `stop_` is set |
| AsyncLogging.AsyncLogging.CheckStop | base/async_logging.h:166-169 | the consumer exits exactly if `stop_` is set, and otherwise the three asserts at the top of the loop are proved to hold |
| AsyncLogging.AsyncLogging.Lock | base/async_logging.h:171-182 | the consumer waits exactly if no full buffer is there, and swaps at once otherwise |
| AsyncLogging.AsyncLogging.Wake | base/async_logging.h:174-182 | the wait may end at any time, and then the swap is defined |
| AsyncLogging.AsyncLogging.Swap | base/async_logging.h:176-182 | full and current buffer objects move to the consumer in order, its spares replace them |
| AsyncLogging.AsyncLogging.CheckCount | base/async_logging.h:186-192 | one CheckCount step: over 25 buffers, the notice is written and two stay |
| AsyncLogging.AsyncLogging.WriteBuffer | base/async_logging.h:194-196 | one turn of the loop writes exactly the bytes before `cur_` of its buffer |
| AsyncLogging.AsyncLogging.WriteBuffers | base/async_logging.h:194-196 | the loop is that many WriteBuffer steps and writes the texts of all buffers in order |
| AsyncLogging.AsyncLogging.Recycle | base/async_logging.h:198-216 | one Recycle step, in which the asserts before each `back()` are proved to hold: both spares are present and empty again, the list is empty |
| AsyncLogging.AsyncLogging.Consume | base/async_logging.h:166-218 | until it has exited the consumer always has a next statement, and that is a step of the protocol |
| ThreadPoolProtocol.NoWakeupIsLost | base/thread_pool.h:63-76 | while a worker sleeps, queued tasks are matched one for one by pending notifications and workers about to look; a queued task with no notification pending finds somebody awake; after Stop no worker sleeps without a `notify_all` pending |
| ThreadPoolProtocol.FifoAndAtMostOnce | base/thread_pool.h:64-75 | at all times accepted tasks are the taken ones followed by the queue, and no task finishes more often than it was accepted |
| ThreadPoolProtocol.ExitedMeansDrained | base/thread_pool.h:71 | once a worker has exited the pool is stopped and the queue is and stays empty in every continuation |
| ThreadPoolProtocol.JoinMeansAllRun | base/thread_pool.h:80-84 | when Join returns, every accepted task has been run, each exactly once |
| ThreadPoolProtocol.HistoryIsTheCalls | base/thread_pool.h:86-120 | over any run the accepted tasks are those passed to AddTask, in the order of the calls, and `stop_` is set exactly if Stop was called |
| ThreadPoolProtocol.EveryAddedTaskHasRun | base/thread_pool.h:64-120 | when Join returns, the tasks passed to AddTask since the start have been run, each exactly once |
| ThreadPoolProtocol.StopBoundsTheRun | base/thread_pool.h:86-92 | after Stop every run is bounded: each step, causeless wakeups included, uses up one of a number computed from the state |
| ThreadPoolProtocol.StoppedPoolMoves | base/thread_pool.h:64-92 | after Stop, until all workers have exited, a worker or the `notify_all` can move |
| ThreadPoolProtocol.PoolGoesQuiet | base/thread_pool.h:64-75 | without new calls and causeless wakeups the pool comes to rest after a bounded number of steps |
| ThreadPoolProtocol.QuietMeansAllRun | base/thread_pool.h:64-75 | at rest, stopped or not, every accepted task has been run exactly once; if stopped, all workers have exited |
| ThreadPoolProtocol.StepKeepsInv | base/thread_pool.h:59-123 | wakeups, queue order and task counts survive every step |
| ThreadPoolLocking.StepKeepsMutualExclusion | base/thread_pool.h:66-73 | in the machine of single statements, a thread is inside a critical section if and only if it holds the mutex |
| ThreadPoolLocking.NestedWaitNeverBlocks | base/thread_pool.h:67-72 | the wait inside `WaitTake`, made while `mutex_` is held, never blocks |
| ThreadPoolLocking.HolderMoves | base/thread_pool.h:66-120 | the holder of the mutex can always take its next statement, so the lock is always released |
| ThreadPoolLocking.StepRefines | base/thread_pool.h:59-123 | each statement is one step of the atomic machine or none |
| ThreadPoolLocking.RunRefines | base/thread_pool.h:59-123 | each run of statements is a run of the atomic machine |
| ThreadPoolLocking.SectionsAreAtomic | base/thread_pool.h:59-123 | whatever single statements can reach, the atomic machine can reach |
| ThreadPoolLocking.JoinMeansAllRun | base/thread_pool.h:80-84 | also statement by statement: when Join returns, every accepted task has been run once |
| ThreadPoolLocking.StoppedSystemMoves | base/thread_pool.h:86-92 | no deadlock after Stop: some thread inside the pool can take a statement until all workers are gone |
| ThreadPoolLocking.StepAfterStop | base/thread_pool.h:64-121 | after Stop each statement of any thread uses up one of a bounded number, and a further call adds at most its own |
| ThreadPoolLocking.StopBoundsTheRun | base/thread_pool.h:64-121 | after Stop every run of statements is bounded by a number computed from the state, plus five for each further call |
| ThreadPoolLocking.JoinReturns | base/thread_pool.h:80-92 | after Stop no run without further calls exceeds that number, and where one ends all workers are gone and every accepted task has been run once |
| ThreadPoolLocking.RunAccounts | base/thread_pool.h:106-123 | over any run of statements, each task is accepted, refused or still with its caller as often as it was passed to AddTask |
| ThreadPoolLocking.RestMeansOutside | base/thread_pool.h:64-123 | where no thread inside the pool can move, nobody is inside AddTask or Stop, and every worker sleeps or is gone |
| ThreadPoolLocking.EveryCallIsAnswered | base/thread_pool.h:64-123 | from call to run: at rest each task has been run or refused as often as it was passed, none was refused unless the pool was stopped, and then all workers are gone |
| ThreadPools.ThreadPool.constructor | base/thread_pool.h:59-78 | n workers at the top of their loop, an empty queue |
| ThreadPools.ThreadPool.AddTask | base/thread_pool.h:113-122 | throws and changes nothing when stopped; otherwise this task joins the end of the queue and of the history, with a notification owed |
| ThreadPools.ThreadPool.Stop | base/thread_pool.h:86-92 | one Stop step, with a `notify_all` owed |
| ThreadPools.ThreadPool.Enter | base/thread_pool.h:66-73 | worker i sleeps, leaves or takes the oldest task as in the protocol, and never comes to wait inside `WaitTake` |
| ThreadPools.ThreadPool.Finish | base/thread_pool.h:74 | the task counts as finished once and the worker is back at the top |
| ThreadPools.ThreadPool.NotifyOne | base/thread_pool.h:121 | one sleeper is woken if there is one, and only then |
| ThreadPools.ThreadPool.NotifyAll | base/thread_pool.h:91 | every sleeper is woken and nobody else is disturbed |
| BlockingQueueProtocol.LimitOf | base/threadsafe_queue.h:69-71 | the int capacity is compared as a size_t: itself if it is not negative, and otherwise more than any queue holds |
| BlockingQueueProtocol.StepKeepsInv | base/threadsafe_queue.h:67-90 | bound, order and who may sleep survive every step of any thread |
| BlockingQueueProtocol.BoundedFifo | base/threadsafe_queue.h:67-90 | the queue never outgrows its capacity, pushed items are taken items followed by the queue, takers sleep only when it is empty and pushers only when it is exactly full |
| BlockingQueueProtocol.CapacityIsKept | base/threadsafe_queue.h:61-77 | built with a capacity of n >= 0, the queue never holds more than n items, in any run |
| BlockingQueueProtocol.RunAccounts | base/threadsafe_queue.h:67-77 | over any run, each item is pushed or still with its thread, awake or asleep, as often as it was passed to Push |
| BlockingQueueProtocol.SleepTogetherIff | base/threadsafe_queue.h:67-90 | takers and pushers can come to be asleep together if and only if the capacity is zero |
| BlockingQueueProtocol.QueueGoesQuiet | base/threadsafe_queue.h:67-90 | without new calls and causeless wakeups the threads rest after a bounded number of steps |
| BlockingQueueProtocol.QuietMeansOneSided | base/threadsafe_queue.h:67-90 | at rest only takes on an empty queue or pushes on a full one are unanswered, never both unless the capacity is zero |
| BlockingQueues.BlockingQueue.Push | base/threadsafe_queue.h:21-27 | the value joins the end, and nobody is left waiting |
| BlockingQueues.BlockingQueue.WaitTake | base/threadsafe_queue.h:30-37 | blocks when empty; otherwise the front leaves and the rest stays in order |
| BlockingQueues.BlockingQueue.Empty | base/threadsafe_queue.h:39-42 | true if and only if nothing is queued |
| BlockingQueues.BoundedBlockingQueue.constructor | base/threadsafe_queue.h:61-62 | the initial state of the protocol with this capacity |
| BlockingQueues.BoundedBlockingQueue.WithinCapacity | base/threadsafe_queue.h:67-77 | in every state its threads can reach the queue holds at most `capacity_size_` items, unless that is negative |
| BlockingQueues.BoundedBlockingQueue.CallPush | base/threadsafe_queue.h:67-68 | a thread comes to push this item |
| BlockingQueues.BoundedBlockingQueue.CallTake | base/threadsafe_queue.h:80-81 | a thread comes to take |
| BlockingQueues.BoundedBlockingQueue.Push | base/threadsafe_queue.h:67-77 | the thread waits with its item, and the queue is unchanged, exactly if the capacity is not negative and reached; otherwise its item joins the end |
| BlockingQueues.BoundedBlockingQueue.WaitTake | base/threadsafe_queue.h:80-90 | the thread waits exactly if the queue is empty; otherwise it gets the front |
| BlockingQueues.BoundedBlockingQueue.NotifyTakers | base/threadsafe_queue.h:67-77 | every sleeping taker is to look again, nobody else is disturbed |
| BlockingQueues.BoundedBlockingQueue.NotifyPushers | base/threadsafe_queue.h:80-90 | every sleeping pusher is to look again with its own item |
| MachineWords.RotlInverse | base/hash_murmur3.cc:9-15 | rotating left by r and then by w - r gives every word back |
| MachineWords.XorShiftInverse | base/hash_murmur3.cc:129 | `h ^= h >> s` is undone by repeating it with doubled shifts |
| MachineWords.XorShiftOnto | base/hash_murmur3.cc:129 | ... in the other order, too, so it is a permutation of the words |
| MachineWords.OddInverseWorks | base/hash_murmur3.cc:102-106 | every odd number has an inverse modulo 2^w, computed bit by bit, which is odd again |
| MachineWords.TimesInverse | base/hash_murmur3.cc:113-114 | a wrapping product with an odd factor is undone by the inverse of the factor, and the other way round |
| WordPrograms.StepUndone | base/hash_murmur3.cc:113-129 | each kind of statement the hashes are made of (`^=`, odd `*=`, rotation, `+=`, xor-shift) permutes the words |
| WordPrograms.RunUndone | base/hash_murmur3.cc:108-129 | every straight-line program of such statements permutes the words, with an explicit two-sided inverse |
| WordPrograms.OneOperandDecides | base/hash_murmur3.cc:111-124 | programs that differ in one operand of `^=` never give the same result |
| WordPrograms.RunPairUndone | base/hash_murmur3.cc:78-84 | programs on two words with `h1 += h2` and `h2 += h1` permute the pairs |
| HashMurmur3.GatheredIsLittleEndian | base/hash_murmur3.cc:120-123 | the fall-through `switch` xors together the little-endian load of the tail |
| HashMurmur3.GatherTail32 | base/hash_murmur3.cc:118-123 | the `switch` of hash32 yields the little-endian tail for each of its four lengths |
| HashMurmur3.Round32 | base/hash_murmur3.cc:111-115 | one round of the loop runs the program made from its block |
| HashMurmur3.Tail32 | base/hash_murmur3.cc:118-125 | the `switch` and what follows it run the program made from the tail, for each of its four lengths |
| HashMurmur3.Hash32 | base/hash_murmur3.cc:97-133 | loop, tail and finaliser run the program made from the key on the seed |
| HashMurmur3.EmptyTail | base/hash_murmur3.cc:120-125 | with no tail, skipping the last scramble is the same as absorbing the word zero |
| HashMurmur3.SeedIsPermutation | base/hash_murmur3.cc:97-133 | for every key of every length, hash32 is a permutation of the 32-bit seeds, with an explicit two-sided inverse |
| HashMurmur3.BlockOpsSplit | base/hash_murmur3.cc:108-115 | block i enters the loop as one operand of `^=`, with a program before it and one after it that do not depend on it |
| HashMurmur3.OneBlockNeverCollides | base/hash_murmur3.cc:97-133 | keys of any equal length that differ only inside one aligned block have different hashes, for every seed |
| HashMurmur3.OneTailNeverCollides | base/hash_murmur3.cc:97-133 | keys of any equal length that differ only inside the tail have different hashes, for every seed |
| HashMurmur3.GatherLane | base/hash_murmur3.cc:57-75 | each lane of the `switch` of hash128 yields its little-endian bytes |
| HashMurmur3.Hash128Short | base/hash_murmur3.cc:24-89 | for keys below 16 bytes the statements run the program on two words that the theorems below are about |
| HashMurmur3.FinalizerIsPermutation | base/hash_murmur3.cc:77-84 | the finaliser of hash128 is a bijection on pairs of 64-bit words, with an explicit two-sided inverse |
| HashMurmur3.ShortKeysNeverCollide | base/hash_murmur3.cc:24-89 | for each length up to 15 and each seed, hash128 is injective in the key |
| HashMurmur3.SeedsNeverCollide | base/hash_murmur3.cc:24-89 | for each key up to 15 bytes, hash128 is injective in the seed |
| HashMurmur3.TinyKeysAndSeedsNeverCollide | base/hash_murmur3.cc:24-89 | up to length 8, hash128 is injective in key and seed together |
| HashReference.Hash32IsMurmur32 | base/hash_murmur3.cc:97-133 | for every key and seed hash32 is a recurrence in `*`, `/`, `%` and exclusive or with the constants written out |
| HashReference.Hash128IsMurmur128 | base/hash_murmur3.cc:24-89 | the same for hash128, for every key below 16 bytes and every seed |
| HashReference.KnownValues | base/hash_murmur3.cc:24-133 | the 32-bit hashes of "test" and "abc" and the 128-bit hash of "hello", with seed 0 |
| SArrays.SArray.constructor | base/sarray.h:49 | a new array is empty, without memory |
| SArrays.SArray.Reset | base/sarray.h:168-170 | the array points at the given memory and counts it as full |
| SArrays.SArray.Resize | base/sarray.h:178-194 | the elements become a prefix or are followed by the fill value; in place only the elements behind the old ones are written, beyond the capacity the old memory is left alone |
| SArrays.ResizedElements | base/sarray.h:178-194 | element by element: what was there stays in its place, and every element behind it is the value passed |
| SArrays.SArray.Reserve | base/sarray.h:199-204 | elements and size stay, no old memory is written, capacity becomes at least n |
| SArrays.SArray.PushBack | base/sarray.h:231-234 | the value joins the end; a full array moves and leaves its old memory alone, another overwrites exactly the one element behind its last |
| SArrays.SArray.PopBack | base/sarray.h:236 | the last element leaves, an empty array stays empty, nothing moves |
| SArrays.SArray.Append | base/sarray.h:238-243 | the elements of the other array join the end, and the other array is unchanged even on shared memory |
| SArrays.SArray.CopyFrom | base/sarray.h:113-126 | the elements become those of the other array, which is unchanged; copying from itself does nothing |
| SArrays.SArray.Clear | base/sarray.h:207 | the array is empty and has given up its memory |
| SArrays.SArray.Set | base/sarray.h:228 | one element of the shared memory changes, at the shifted index |
| SArrays.SArray.Segment | base/sarray.h:253-260 | the new array views elements [begin, end) of the same memory, with no room behind them |
| SArrays.GrowthInvariant | base/sarray.h:178-236 | over any run of pushes and pops the fill equals the capacity, all but five of it was copied, and it is at most 2n + 3 |
| SArrays.GrowthIsLinear | base/sarray.h:178-236 | n pushes, however mixed with pops, copy fewer than 2n elements and fill in at most 2n + 3 |
| SArrays.SegmentsCompose | base/sarray.h:253-260 | a segment of a segment is the segment of the whole at shifted bounds |
| SArrays.WriteThroughSegment | base/sarray.h:228-260 | a write through a segment changes the parent at the shifted index and nowhere else |
| SArrays.PushOnSegment | base/sarray.h:231-260 | pushing on a segment reallocates it and leaves the parent's elements unchanged |
| SArrays.PopAndPushOnCopy | base/sarray.h:231-236 | pop and push on a copy overwrite the last element of the original |
| SArrays.CastKeepsBytes | base/sarray.h:81-86 | assignment across types succeeds if and only if the bytes divide evenly, keeps their number, and claims all the memory there is and no more |
| LogRolling.EachMessageInOneFile | base/logging.cc:465-509 | over any run, the files one after the other hold exactly the messages written, in order, each once |
| LogRolling.EntriesAreTheWrites | base/logging.cc:465-475 | what a file records of a write is its message, when it began, and whether the existence test was made and failed |
| LogRolling.OpenedIsValid | base/logging.cc:403-440 | construction opens a file and establishes the bookkeeping |
| LogRolling.RunKeepsBookkeeping | base/logging.cc:465-505 | over any run `start_of_period_` is the day of the last roll, which is when the open file was opened, the last flush is no earlier, and `count_` stays below `check_every_n_` |
| LogRolling.NamesRepeatAtMostOnce | base/logging.cc:495-558 | two files share the second in their name exactly when they are neighbours and the later was opened and named in the second the earlier was named for |
| LogRolling.NewDayRolls | base/logging.cc:480-491 | any `check_every_n_` consecutive writes that begin in a later day than the open file include a roll |
| LogRolling.NoRollWithoutReason | base/logging.cc:465-509 | over any run since construction, a closed file had grown beyond `roll_size_`, or a write had found it gone, or its successor was opened on a later day |
| LogRolling.RunForReason | base/logging.cc:465-509 | that survives every run |
| LogRolling.ChecksAreRare | base/logging.cc:480-491 | a write that neither the size nor a missing file rolls for does nothing but count, except each `check_every_n_`-th, and a flush waits for its interval |
| LogRolling.DayStarts | base/logging.cc:484 | a period starts at the last multiple of 86400 seconds |
| LogRolling.FlushKeepsUp | base/logging.cc:480-491 | after any `check_every_n_` consecutive writes the last flush is no older than `flush_interval_`, seen from the start of the first of them |
| LogRolling.RunKeepsSizes | base/logging.cc:468-478 | over any run, each message begun past its file's opening second, except perhaps the last one of a closed file, found the file there and left it within `roll_size_` |
| LogRolling.OversizeAndGoneFilesAreClosed | base/logging.cc:468-478 | such a message that leaves its file too big, or finds it removed, is the last one in it, and the file is closed |
| LogFiles.WriteOp.Write | base/logging.cc:586-609 | the byte count grows by what is put out, and an empty message puts out nothing, not even a newline |
| LogFiles.HeadersHaveOneSize | base/logging.cc:511-526 | every file starts with a header of the same length, whatever the date line says |
| LogFiles.HeaderBytes | base/logging.cc:511-526 | the header takes 133 bytes, and a line more for a machine that has a name |
| LogFiles.LogFile.constructor | base/logging.cc:403-440 | one file is open, holding its header |
| LogFiles.LogFile.OpenFile | base/logging.cc:502-526 | the new file holds exactly its header and the times are those of the roll |
| LogFiles.LogFile.WriteHeader | base/logging.cc:511-526 | the four writes amount to the header, and the byte count is its length |
| LogFiles.LogFile.RollFile | base/logging.cc:495-542 | one Roll: a new file unless the last one was opened this second or later, and the answer says which |
| LogFiles.LogFile.AddMessage | base/logging.cc:465-466 | the bytes of the open file stay its header followed by its messages |
| LogFiles.LogFile.Settle | base/logging.cc:468-492 | what follows the write of the message: the roll for a missing or oversize file, or the count and the periodic check |
| LogFiles.LogFile.WriteUnlocked | base/logging.cc:465-493 | one write of the model for each possible clock and each answer of the existence test; the message goes to the file that was open, which is kept if it is there, small enough and of today |
| LogFiles.LogFile.CountAndCheck | base/logging.cc:480-491 | one periodic check of the model |
| LogFanOut.NameRoundTrip | base/logging.h:62-82 | a logger made for the name of file i writes to file i |
| LogFanOut.FileTakesItsSeverities | base/logging.h:40-82 | a severity reaches a file exactly if it is at least as severe as the severity the file is named after; the first file takes everything |
| LogFanOut.NameLeadsToItsFile | base/logging.h:62-82 | each of the six severities and its name lead to the same file |
| LogFanOut.SelectionsNest | base/async_logging.h:241-253 | what file j gets is what it would select from any lower file, in order, and file 0 gets everything: ERROR is part of WARN, WARN of INFO |
| LogFanOut.PassedToServes | base/async_logging.h:241-253 | passing a record to the first files keeps every file at exactly the records whose index is at least its own |
| LogFanOut.FileIsPrefixOfItsRecords | base/async_logging.h:139-220 | a logger in a reachable state that was passed the records of file i has written a prefix of them |
| LogFanOut.AsyncLoggingManager.FilesArePrefixes | base/async_logging.h:139-253 | end to end: whatever was logged and however far the consumers are, each file that is there holds a prefix of the records of its severities, in logging order |
| LogFanOut.AsyncLoggingManager.constructor | base/async_logging.h:224-231 | no logger exists and nothing has been logged |
| LogFanOut.AsyncLoggingManager.MakeLogger | base/async_logging.h:245-250 | a new logger in its initial state, sharing no memory with the others, which stay as they were |
| LogFanOut.AsyncLoggingManager.PassTo | base/async_logging.h:251 | one logger takes an Append step, the others stay as they were |
| LogFanOut.AsyncLoggingManager.GiveTo | base/async_logging.h:244-251 | the logger of one file is made at its first message and is given the message |
| LogFanOut.AsyncLoggingManager.GiveToEach | base/async_logging.h:244-252 | the loop gives the message once to each file up to the index and leaves the others alone |
| LogFanOut.AsyncLoggingManager.Append | base/async_logging.h:241-253 | after any sequence of calls each logger has been given exactly the records whose index is at least its own, in order, and is in a state its threads can reach |
| LogFanOut.AsyncLoggingManager.Consume | base/async_logging.h:166-218 | a step of any consumer keeps that, and touches no other logger |
| LogFanOut.AsyncLoggingManager.Stop | base/async_logging.h:89-93 | so does stopping a logger |
| LogFanOut.Line | base/logging.cc:189-197 | the text that is sent ends in a newline, which is added exactly if it is missing |
| LogFanOut.LogDestinations.Write | base/logging.cc:207-212 | each file has been given exactly the records whose index is at least its own, in order |
| LogFanOut.LogDestinations.Flush | base/logging.cc:189-234 | files are written exactly in synchronous mode with a directory and a program name; the send method gets the message in asynchronous mode, or as INFO without a directory or on request, and a warning after a message near the limit |
| DStrings.StringStream.GetLine | base/dstring.h:20 | delivers the first remaining item if there is one, and fails if and only if there is none |
| DStrings.Split | base/dstring.h:16-24 | the items of the string, or with trim the non-empty ones, in order |
| DStrings.SplitInvertsPrint | base/dstring.h:16-24 | splitting any delimiter-free items printed with their delimiters gives the items back, also when a last item lacks its delimiter |
| DStrings.PrintInvertsSplit | base/dstring.h:16-24 | printing what was split gives the string back, up to a missing last delimiter, and no item contains the delimiter |
| DStrings.NonEmptyDropsEmpty | base/dstring.h:21 | with trim no item is empty, and nothing changes if none was |
| DStrings.NonEmptyDistributes | base/dstring.h:21 | trimming works item by item, so the others keep their order |

## Left out

- AsyncLogging.AsyncLogging.Append: a call that would reach base/async_logging.h:149 is excluded, because `Reset()` through a moved-from pointer has no meaning; `AppendDefinedIff` says exactly which calls these are.
- LogFanOut.AsyncLoggingManager.Append: excludes the same calls for each logger it reaches.
- HashMurmur3.Hash128Short: keys of 16 bytes and more are not modelled, because base/hash_murmur3.cc:44-52 reads `k2` before it is set.
- SArrays.SArray.Append: excludes an array appended to itself and overlapping ranges, on which the `memcpy` is undefined.
- SArrays.SArray.CopyFrom: excludes overlapping ranges for the same reason.
- SArrays.SArray.PushBack: takes the value, not a reference into the array it may move.
- SArrays.CastKeepsBytes: speaks of sizes only; the reinterpreted elements are not modelled.
- SArrays.SArray.Resize: element type `int` stands for any V; reference counts, deleters, allocation failure and overflow of `size_t` are not modelled.
- LogFiles.LogFile.WriteUnlocked: `time()` and the cached date are taken to be one clock that never goes back; messages are shorter than 2^31 bytes; streams never fail.
- LogRolling.NamesRepeatAtMostOnce: two rolls that share a name append to one file on disk; the model keeps them as two.
- LogFanOut.LogDestinations.Flush: an empty message is excluded (base/logging.cc:191 would read before the text); every message has a prefix. The warning's text is an input.
- BlockingQueues.BlockingQueue.WaitTake: threads waiting on the unbounded queue are in `BlockingQueueProtocol` with no limit; there it notifies sleeping pushers, of which an unbounded queue has none.
- ThreadPools.ThreadPool.constructor: one `Init` with at least one thread; `Init(0)`, a second `Init` and the destructor after `Stop` (which does not join) are not modelled.
- ThreadPools.ThreadPool.Finish: tasks end; their values, futures and exceptions are not modelled.
- ThreadPoolLocking.RunRefines: the mutex inside the queue makes each queue operation one step; effects of a weak memory model are not modelled.
- AsyncLoggingProtocol.StopIsBounded: counts steps, not seconds; that `wait_for` ends is part of the model.
- The race of the consumer thread with the constructor of AsyncLogging on `stop_` (base/async_logging.h:117-131 and 157): the model starts after `Start()`.
- The calendar in Date and the rendering of dates, host names and file names: the calendar is not the civil one, so there is no theorem about it.
- Directories, symbolic links, the flush itself (its time is followed), standard error, backtraces and the exception of FATAL messages: effects outside the model.
- RefCounted, the registry and factory, timers, status, bit operations, the synchroniser and the singleton: they would add only easy members.
- The protobuf, random, allocator and thread-local wrappers: they forward to libraries.
