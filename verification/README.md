# Verified models of seven kernel modules

Seven modules of this repository hold real state machines or concurrent protocols. This project
models each of them in Dafny and proves what their comments and readmes promise about *all* runs:
any number of threads, readers, writers and timers, interleaved one shared-memory access (or one
critical section) at a time.

Every module appears twice: as values, with a state, an `Enabled` guard and an `Apply` or `Perform`
function over which all runs are quantified; and as a class with the module's own variables, whose
methods change them in place, one step or one whole callback at a time. Each class has a `Drive` (or
`Traverse`, `ReadAll`, `RaceWrite`) that takes the object through any schedule and promises the
module's main result about its fields, and methods for whole calls by a caller that nobody disturbs,
specified by their effect on the fields.

| files | module | what is proved about it |
|---|---|---|
| `RaceCounter`, `RaceRuns`, `RaceSchedules`, `RaceDevice`, `StressTest`, `StressSchedules` | 11, the four-mode counter | the counters are exact if and only if no stale value is ever stored; when that is so; what the stress test reports, with bounds that are attained |
| `BlockingEvents`, `BlockingAnswers`, `BlockingQuiescence`, `BlockingDevice` | 12, the blocking event device | no lost wakeup, conservation of events, ordered labels, what each call answers, and a measure by which every schedule ends |
| `RingHistory`, `KthreadDemo`, `SnapshotText`, `Slices` | 15, the overwriting ring and its text | drained, buffered and dropped items account for everything; the text read parses back to what was drained |
| `ProducerThreads`, `ProducerControl` | 15, starting and stopping producers | every live thread has exactly one owner and stops once, and every reply is true |
| `TokenBucket` | 17, the rate limiter | bounds, window limit, tight rejection and dominance, each with the exact condition on the 32-bit refill sum |
| `GpioMirror`, `GpioDriver` | 03, the button-to-LED mirror | mirroring, parity of the counters, a poller that never dies, intervals that take effect |
| `SeekBuffer` | 09, the seekable buffer | the array implements a growing zero-padded byte sequence in which the last writer wins |
| `EventLog` | 06, the event log | a traversal in any number of sessions emits the log once, in order |
| `Tally` | | sums over sequences, used by all |

Where the code and what is written about it disagree, the code is modelled:

- 12: "exactly one waiting reader consumes each produced event" holds per raised flag. Two events
  before a reader comes are consumed as one (`EventsCanMerge`), and at rest every event has been
  consumed separately exactly if no flag was set while already up (`EachConsumedUnlessMerged`).
- 17: the token count leaves its bounds exactly when capacity plus refill rate exceeds the largest
  `int`; `refill_rate <= capacity` is checked when the rate is set and is not kept when the capacity
  shrinks, so it is not an invariant of the model.
- 11: `reset` takes only the spinlock, so in mutex mode it can be undone by an increment in flight
  (`ResetInsideMutexIncrementIsUndone`).
- 03: a new interval can fail to take effect when two writers of it overlap (`OverlappingWritersMistime`),
  exactly when the last of them re-times with the older interval (`NewIntervalTakesEffect`); and a new
  invert flag when the immediate sample cannot read the button (`InvertTakesEffect`).
- 06: a "clear" during a traversal makes it skip events recorded after it (`ClearSkipsEvents`), exactly
  when something had been read before (`TraversalEmitsTheLog`).

## Model

| member | source | states |
|---|---|---|
| RaceCounter.LocksAlways | 11_concurrency_locking/concurrency_locking.c:85-100 | each lock's holder is exactly the thread in that lock's critical section, in every reachable state |
| RaceCounter.ExactIffNeverStale | 11_concurrency_locking/concurrency_locking.c:71-113 | in any run, whatever the modes and resets, both counters equal the increments landed since their last clear at every moment, if and only if no store in the run is of an outdated value |
| RaceCounter.CurrentKept | 11_concurrency_locking/concurrency_locking.c:85-87 | a value read under a lock stays current until it is stored, as long as spinlock and mutex sections are not occupied together and nobody is on the unlocked path |
| RaceCounter.CompatibleRunsAreExact | 11_concurrency_locking/concurrency_locking.c:77-113 | runs switching freely between modes 1 to 3, with resets, are exact at every moment if the two critical sections never overlap |
| RaceCounter.FixedModeIsCompatible | 11_concurrency_locking/concurrency_locking.c:127-129 | in a fixed spinlock or atomic mode the sections never overlap whatever is reset; in mutex mode they do not when nobody resets |
| RaceCounter.ResetLinearizes | 11_concurrency_locking/concurrency_locking.c:125-134 | fixed in spinlock or atomic mode with resets at any moment, the mode's counter is the number of increments that landed after the last clear of that counter |
| RaceCounter.ResetLinearizesInMutexMode | 11_concurrency_locking/concurrency_locking.c:98-129 | the same in mutex mode when no reset's section overlaps an increment's |
| RaceSchedules.ResetInsideMutexIncrementIsUndone | 11_concurrency_locking/concurrency_locking.c:98-134 | a run in mutex mode in which a complete reset is undone by an increment in flight: one increment since the clear, counter at 2 |
| RaceCounter.ExactAcrossModes | 11_concurrency_locking/concurrency_locking.c:77-152 | in modes 1 to 3 switched at will, with no reset and no overlap of the sections, the two counters at quiescence add up to all completed increments |
| RaceCounter.ExactCountIffNeverStale | 11_concurrency_locking/concurrency_locking.c:71-152 | in every run without a reset, in any modes, locked or not, the counters at quiescence add up to all completed increments if and only if no store was of an outdated value |
| RaceSchedules.SpinlockAndMutexLoseAnUpdate | 11_concurrency_locking/concurrency_locking.c:83-101 | without the condition on overlap it fails: a mode change lets a spinlock and a mutex increment run together, and two increments count as one |
| RaceCounter.NeverOvercounts | 11_concurrency_locking/concurrency_locking.c:52-152 | in every mode, through mode changes and resets, the counters never exceed the increments that have landed |
| RaceCounter.RacyAtLeastTwo | 11_concurrency_locking/concurrency_locking.c:71-74 | unsynchronized, once every thread has two increments behind it, the counter is at least 2 and at most the increments landed |
| RaceDevice.Device.ThreadStep | 11_concurrency_locking/concurrency_locking.c:52-134 | one access of increment_once or reset_counters, on the module's globals, is the corresponding step of the state machine |
| RaceDevice.Device.IncrementOnce | 11_concurrency_locking/concurrency_locking.c:52-115 | undisturbed, an increment in any mode adds one to that mode's counter only and releases its lock |
| RaceDevice.Device.RaceWrite | 11_concurrency_locking/concurrency_locking.c:142-152 | undisturbed, write(count) makes min(count, 1000000) increments, all counted, and returns that number |
| RaceDevice.Device.ResetCounters | 11_concurrency_locking/concurrency_locking.c:125-134 | undisturbed: both counters are 0 and the reset is counted, whoever holds the mutex |
| RaceDevice.Device.ModeStore | 11_concurrency_locking/concurrency_locking.c:191-210 | values 0 to 3 and no others are accepted; others change nothing |
| StressTest.Worker | 11_concurrency_locking/stress_test.c:23-42 | a worker issues ceil(n / 65536) chunks, all but the last full, and the counter grows by exactly n |
| StressTest.JoinedMeansDone | 11_concurrency_locking/stress_test.c:29-39 | in any interleaving of n workers, all joined means each completed exactly its k increments |
| StressTest.NoLostUpdates | 11_concurrency_locking/stress_test.c:120-142 | in each of the modes 1 to 3 actual equals expected, whatever the interleaving |
| StressTest.VerdictIsRight | 11_concurrency_locking/stress_test.c:136-148 | in every mode the test finds actual equal to expected if and only if no worker stored an outdated value |
| StressTest.RacyVerdict | 11_concurrency_locking/stress_test.c:136-148 | without a lock the result lies between 2 and the expected total |
| StressSchedules.TwoIsAttained | 11_concurrency_locking/stress_test.c:120-148 | for all n >= 2 workers of k >= 2 increments there is an interleaving of the stress test that joins everybody and reports exactly 2 |
| BlockingEvents.WakeupsKeptStep | 12_wait_queues_blocking/wait_queues_blocking.c:52-54 | every step of a reader, poller, producer, signal or exit keeps it true that a raised flag beside a blocked task has a wake-up due |
| BlockingEvents.NoLostWakeup | 12_wait_queues_blocking/wait_queues_blocking.c:49-96 | in every reachable state, if the flag is up while a task sleeps unwoken, somebody has raised the flag and not yet done its wake |
| BlockingEvents.EventConservation | 12_wait_queues_blocking/wait_queues_blocking.c:51-92 | until exit: event_id = flag sets + producers between increment and set; flag sets = consumptions + merged sets + the flag; waiter_count = tasks inside the wait |
| BlockingEvents.EachConsumedUnlessMerged | 12_wait_queues_blocking/wait_queues_blocking.c:83 | at rest with the flag down, as many events were consumed as produced if and only if no flag was set while already up |
| BlockingEvents.EventsCanMerge | 12_wait_queues_blocking/wait_queues_blocking.c:51-83 | a run in which two events are consumed as one |
| BlockingEvents.LabelsInOrder | 12_wait_queues_blocking/wait_queues_blocking.c:83-98 | the k-th consumption reports an id of at least k and at most event_id; the ids one reader sees never decrease |
| BlockingEvents.ExactlyOneReader | 12_wait_queues_blocking/wait_queues_blocking.c:60-83 | consumption k has been made if and only if some task holds it, and no two tasks hold the same one |
| BlockingAnswers.ReadAnswers | 12_wait_queues_blocking/wait_queues_blocking.c:82-103 | in every run from the moment a task enters read(): only a blocking read ever waits, only a non-blocking one answers -EAGAIN and only having found the flag down, only a signal interrupts, and an answer with an event is the one new report of the task |
| BlockingAnswers.NonblockAnswersAtOnce | 12_wait_queues_blocking/wait_queues_blocking.c:83-87 | a non-blocking read answers with its second step, whatever happens around it |
| BlockingAnswers.PollAnswers | 12_wait_queues_blocking/wait_queues_blocking.c:113-121 | in every run from the moment a task enters poll(): it consumes nothing, says readable only having found the flag up, and is interrupted only by a signal |
| BlockingQuiescence.FinishingDescends | 12_wait_queues_blocking/wait_queues_blocking.c:82-96 | every step taken once nothing new starts lowers a natural-number measure |
| BlockingQuiescence.SchedulesEnd | 12_wait_queues_blocking/wait_queues_blocking.c:82-96 | so every schedule from there has at most that many steps |
| BlockingQuiescence.RestIsSafe | 12_wait_queues_blocking/wait_queues_blocking.c:82-96 | where schedules end, every task has returned or sleeps, every wake-up is done, and nobody sleeps while the flag is up or with a signal pending |
| BlockingQuiescence.FewMoreConsumed | 12_wait_queues_blocking/wait_queues_blocking.c:82-84 | on the way at most one more event is consumed per flag that is up or still to be raised |
| BlockingDevice.Device.WakeUp | 12_wait_queues_blocking/wait_queues_blocking.c:54 | marks every queued task and changes nothing else |
| BlockingDevice.Device.RunPoller | 12_wait_queues_blocking/wait_queues_blocking.c:113-121 | one step of a poll; it reports readable only while the flag is up |
| BlockingDevice.Device.BqRead | 12_wait_queues_blocking/wait_queues_blocking.c:74-103 | undisturbed: with the flag up, takes it down and answers event_id; with it down, a non-blocking read answers -EAGAIN and changes nothing, and a blocking one is counted as a waiter and sleeps |
| BlockingDevice.Device.Trigger | 12_wait_queues_blocking/wait_queues_blocking.c:159-166 | undisturbed: event_id goes up by one, the flag is up and nobody is left asleep |
| BlockingDevice.Device.Drive | 12_wait_queues_blocking/wait_queues_blocking.c:49-237 | on the object: after any schedule of reads, polls, signals, producers and exit every answer is of the right kind, no wake-up is lost on data_ready and the queue, and until exit event_id and waiter_count account for every event and waiting task |
| RingHistory.Conservation | 15_kthreads/kthreads.c:69-80 | for any productions and drains, next_seq = items drained + ring_count + dropped_count, and at most 16 are buffered |
| RingHistory.DrainHistory | 15_kthreads/kthreads.c:158-169 | the buffered items are numbered next_seq - ring_count to next_seq - 1; drained batches concatenate to a strictly increasing sequence; each batch starts after all drained and all dropped before it, and is a full ring if anything was dropped since the last drain |
| RingHistory.GapIsDrops | 15_kthreads/kthreads.c:75-78 | the gap between two batches is exactly the drops between their drains, and a batch after a gap has 16 items |
| RingHistory.ItemsCarryTheirStamps | 15_kthreads/kthreads.c:71-72 | whatever is drained or buffered, the item numbered k has the clock reading of the k-th production |
| RingHistory.StampsInOrder | 15_kthreads/kthreads.c:72 | with a monotone clock, the ns values are in order over everything drained and buffered |
| KthreadDemo.WindowGrows | 15_kthreads/kthreads.c:71-76 | storing at head modulo 16 appends to the items read from start while there is room |
| KthreadDemo.WindowMoves | 15_kthreads/kthreads.c:71-78 | in a full ring it appends and pushes out the oldest |
| KthreadDemo.Demo.ProduceOne | 15_kthreads/kthreads.c:69-80 | the locked part of the producer loop, on the array, head and counts, is one production: the newest item has the next number and this clock reading |
| KthreadDemo.Demo.DrainRing | 15_kthreads/kthreads.c:159-169 | returns the buffered items oldest first and empties the ring |
| KthreadDemo.ShownNext | 15_kthreads/kthreads.c:172-178 | the first 639 characters of a rendering grow by as much of the next line as there is room for |
| KthreadDemo.Demo.FormatSnapshot | 15_kthreads/kthreads.c:171-178 | the buffer holds exactly the first min(639, L) of the L characters the items render to, and reads back as the items, without leading zeros, exactly when L <= 639 |
| KthreadDemo.Demo.SimpleReadFromBuffer | 15_kthreads/kthreads.c:181-182 | a read returns the slice of the snapshot at the position and moves past it |
| KthreadDemo.Demo.Read | 15_kthreads/kthreads.c:152-183 | at position 0, of whatever size, drains into a new snapshot; elsewhere leaves ring and snapshot alone |
| KthreadDemo.Demo.ReadAll | 15_kthreads/kthreads.c:158-182 | one reader's positive-size reads, with production going on between them, drain once and return the slices of one snapshot in series |
| Slices.SeriesIsPrefix | 09_read_write_cdev/read_write_cdev.c:82-95 | a series of reads returns the start of the text, as much as was asked for in total |
| Slices.ReadToEnd | 15_kthreads/kthreads.c:181-182 | reads of any sizes up to a positive one that returns nothing return exactly the text |
| SnapshotText.ReadItemsOfRender | 15_kthreads/kthreads.c:173-177 | parsing a rendering gives back the same list of (seq, ns) |
| SnapshotText.OnlyWholeRenderingParses | 15_kthreads/kthreads.c:173-177 | a prefix of a rendering parses back to the items if and only if it is all of it |
| SnapshotText.RenderIsTheOnlyText | 15_kthreads/kthreads.c:173-177 | a text is the rendering of the items if and only if it parses to them and has no leading zeros |
| KthreadDemo.SnapshotReadsBack | 15_kthreads/kthreads.c:171-182 | what a reader has read when nothing more comes parses back to exactly the drained items if and only if their rendering is at most 639 characters long |
| ProducerThreads.OwnedKept | 15_kthreads/kthreads.c:99-144 | every step of starts, stops, status reads, threads and drains keeps the ownership discipline |
| ProducerThreads.ThreadOwnership | 15_kthreads/kthreads.c:121-144 | each live thread is producer_task or held by exactly one stop in flight, never both; no thread is passed to kthread_stop twice |
| ProducerThreads.NoDanglingThread | 15_kthreads/kthreads.c:209-213 | producer_task, when set, names a thread that has neither returned nor been told to stop; a stop in flight never refers to a freed thread |
| ProducerThreads.NobodyIsStuck | 15_kthreads/kthreads.c:103-141 | a caller that cannot go on waits for a lock whose holder can, or for a live thread that has been told to stop |
| ProducerThreads.ToldThreadReturns | 15_kthreads/kthreads.c:68-90 | in every run from a moment when a thread has been told to stop, it takes at most three more steps, exactly as many as bring it to its return, and produces at most the one item it was already about to |
| ProducerThreads.RunningThreadProduces | 15_kthreads/kthreads.c:68-90 | a thread that nobody stops produces one item in every three of its steps |
| ProducerThreads.RepliesAreTrue | 15_kthreads/kthreads.c:99-143 | in every run, when a caller is told so: started or already running means producer_task names a running thread, failed or not running that it is unset, a status whether it is set, stopped that a thread has returned and is gone |
| ProducerThreads.RepliesCountThreads | 15_kthreads/kthreads.c:99-144 | over any schedule, as many threads have come into being as starts have said so or are about to, and as many are gone as stops have said so |
| ProducerThreads.RingSurvivesRestarts | 15_kthreads/kthreads.c:69-144 | the conservation and drain history of the ring hold across starts, stops and overlapping producers |
| ProducerControl.Control.StartProducer | 15_kthreads/kthreads.c:99-119 | with the lock free: creates a thread and publishes it in producer_task exactly when none is set and creation succeeds |
| ProducerControl.Control.StopProducer | 15_kthreads/kthreads.c:121-144 | with the lock free: takes the thread out of producer_task, and returns when it has returned, after at most one more item |
| ProducerControl.Control.StatusShow | 15_kthreads/kthreads.c:209-213 | with the lock free: says whether producer_task is set and changes nothing |
| ProducerControl.Control.Drive | 15_kthreads/kthreads.c:63-213 | on producer_task, its lock and the ring array: after any schedule of starts, stops, status reads, threads and drains, each live thread is producer_task or held by one stop, never both, none is stopped twice, threads made and gone are those that starts and stops have reported, and next_seq = drained + ring_count + dropped_count |
| TokenBucket.BoundsAndNoOverflow | 17_advanced_module_params/token_bucket.c:223-225 | from load on, with no capacity above 2^30 - 1 accepted, 0 <= tokens <= capacity always and tokens + refill_rate never overflows |
| TokenBucket.BoundsExactlyWhenSumFits | 17_advanced_module_params/token_bucket.c:224 | with parameters left alone, the bounds hold in every run if and only if capacity + refill_rate fits in an int |
| TokenBucket.WindowLimit | 17_advanced_module_params/token_bucket.c:223-252 | in every window of every run, under any parameter changes and even across an overflow, grants plus tokens left are at most the tokens at its start plus the rates at its ticks |
| TokenBucket.EveryTokenAccounted | 17_advanced_module_params/token_bucket.c:125-252 | in every window of every run, under any parameter changes, grants plus tokens left are the tokens at its start plus the rates at its ticks less exactly what was cut off at a full bucket, at a shrinking capacity or by a 32-bit overflow |
| TokenBucket.TightRejection | 17_advanced_module_params/token_bucket.c:219-251 | with fixed parameters, the bucket is empty if and only if some earlier full moment starts a window whose grants equal capacity + refill_rate * ticks |
| TokenBucket.WritesAreRejectedTightly | 17_advanced_module_params/token_bucket.c:244-251 | so a write is rejected exactly when such a window leads up to it, and granted a token otherwise |
| TokenBucket.TightExactlyWhenSumFits | 17_advanced_module_params/token_bucket.c:224 | and that holds in every run if and only if capacity + refill_rate fits in an int |
| TokenBucket.Dominance | 17_advanced_module_params/token_bucket.c:148-251 | on the same callbacks, parameter changes included, a bucket with at least the supply, rate and capacity of another keeps that at every moment (consumed at least as much, consumed + tokens at least as large) if and only if no rate change is accepted by it alone and takes it below the other, as long as its refill sum fits in an int |
| TokenBucket.DominanceExactlyWhenSumFits | 17_advanced_module_params/token_bucket.c:224 | with fixed parameters a full bucket dominates every lesser one in every run if and only if capacity + refill_rate fits in an int |
| TokenBucket.SlowerIsOvertaken | 17_advanced_module_params/token_bucket.c:161-251 | a bucket that has become slower than another, however far ahead, is overtaken in consumption by some continuation |
| TokenBucket.RateChangeBreaksDominance | 17_advanced_module_params/token_bucket.c:148-225 | a run from load on in which a rate that only the larger bucket accepts costs it its lead |
| TokenBucket.EveryWriteCounted | 17_advanced_module_params/token_bucket.c:244-251 | total_consumed + total_rejected is the number of writes, and mode_str always spells the mode in force |
| TokenBucket.ServedByMode | 17_advanced_module_params/token_bucket.c:244-257 | in any window in one mode, the writes that succeed are exactly the tokens granted if it is enforce, and all writes otherwise |
| TokenBucket.EnforcedWindow | 17_advanced_module_params/token_bucket.c:219-257 | in any window in enforce mode, under any changes of capacity and rate, no more writes succeed than there were tokens at its start and have been added at its ticks |
| TokenBucket.ModeReadsBack | 17_advanced_module_params/token_bucket.c:65-98 | writing back what the mode parameter reads as, newline included, is accepted and changes nothing |
| TokenBucket.ModeAccepts | 17_advanced_module_params/token_bucket.c:65-97 | exactly the three names, with or without a newline, are accepted, and then read back; other text changes nothing |
| TokenBucket.Limiter.constructor | 17_advanced_module_params/token_bucket.c:279-285 | after any load-time parameters and init the limiter is full and has counted nothing; with capacities up to 2^30 - 1 the refill sum fits |
| TokenBucket.Limiter.Drive | 17_advanced_module_params/token_bucket.c:65-258 | on the object: over any window of ticks, writes and parameter changes, the window limit and the exact account of tokens and total_consumed, every write counted once, and the writes that succeed as ServedByMode says |
| GpioMirror.MirroringKept | 03_gpio_sim/gpioctrl.c:233-291 | every step of worker and control writers keeps LED, button, counters and histories in agreement |
| GpioMirror.FlipsParity | 03_gpio_sim/gpioctrl.c:240-264 | a sequence of bits changes less often than it is long, and an odd number of times exactly when its ends differ |
| GpioMirror.MirrorParity | 03_gpio_sim/gpioctrl.c:233-291 | whenever the lock is free the pin is state->led is equal to the sampled button exactly when that sample found the invert flag off; changes and output_updates never exceed samples and are odd exactly when button and LED differ from init or the last reset |
| GpioMirror.ButtonWasRead | 03_gpio_sim/gpioctrl.c:227-267 | the recorded button is always a value that was successfully read |
| GpioMirror.PollerSurvives | 03_gpio_sim/gpioctrl.c:323-346 | the work item is always queued or running, after failed reads and re-timing too |
| GpioMirror.NewIntervalTakesEffect | 03_gpio_sim/gpioctrl.c:323-346 | in every run from init: whenever no writer is in the middle, queued work is queued with the current poll_ms, if and only if no writer is the last to re-time the work with an interval that has been replaced |
| GpioMirror.LoneWritersAreNeverLate | 03_gpio_sim/gpioctrl.c:619-641 | in particular, if no two interval writers overlap |
| GpioMirror.OverlappingWritersMistime | 03_gpio_sim/gpioctrl.c:998-1009 | a run from init in which two writers overlap and the work ends up queued with the older interval |
| GpioMirror.InvertTakesEffect | 03_gpio_sim/gpioctrl.c:547-564 | in every run from init: whenever no writer is about to sample, the LED equals the sampled button exactly when the invert flag is off, if and only if no invert writer failed to read the button while its flag was not in force and nobody else was about to sample |
| GpioDriver.Driver.InvertStore | 03_gpio_sim/gpioctrl.c:547-564 | undisturbed: the flag is stored and the LED is the button read, or its opposite if the flag is on; a failed read samples nothing |
| GpioDriver.Driver.PollMsStore | 03_gpio_sim/gpioctrl.c:612-641 | undisturbed: 10 to 60000 is stored and the work queued with it; anything else is refused and changes nothing |
| GpioDriver.Driver.ResetCommand | 03_gpio_sim/gpioctrl.c:905-927 | undisturbed: the three counters are 0 and everything else is as before |
| GpioDriver.Driver.SyncCommand | 03_gpio_sim/gpioctrl.c:891-899 | undisturbed: samples, or answers the error of the read |
| GpioDriver.Driver.WorkFn | 03_gpio_sim/gpioctrl.c:323-346 | undisturbed: samples unless the read failed, and queues itself with the current interval in either case |
| GpioDriver.Driver.Drive | 03_gpio_sim/gpioctrl.c:233-1026 | on the object: after any schedule of the worker and of control writers the pin is state->led, equal to the button exactly when the sample found the flag off, the counters are bounded by samples and have the right parity, and the work item is queued or running |
| SeekBuffer.Device.constructor | 09_read_write_cdev/read_write_cdev.c:169 | a zeroed array of 4096 bytes is the empty byte sequence |
| SeekBuffer.Device.Read | 09_read_write_cdev/read_write_cdev.c:74-103 | returns the slice of the byte sequence at the position, empty outside it, and moves past it |
| SeekBuffer.Device.Write | 09_read_write_cdev/read_write_cdev.c:105-143 | pads to the position, overwrites and is cut at capacity, in array and byte sequence alike; the tail stays zero; fails exactly at or past the end |
| SeekBuffer.Device.WriteFaulting | 09_read_write_cdev/read_write_cdev.c:121-124 | a faulting copy moves neither position nor length; the tail is still zero if and only if what it left past the end is |
| SeekBuffer.Seek | 09_read_write_cdev/read_write_cdev.c:151-154 | a seek is refused exactly for an unknown whence or a target outside 0 to 4096, except that asking for the position always works; otherwise it goes to start, position or capacity plus the offset |
| SeekBuffer.LastWriterWins | 09_read_write_cdev/read_write_cdev.c:113-142 | after any history of writes the contents are as long as the furthest end, at most 4096, each byte the last one written there, zero in every gap |
| SeekBuffer.ReadsBack | 09_read_write_cdev/read_write_cdev.c:87-142 | reading where a write was made returns what was accepted; everything else is unchanged but for zero padding |
| SeekBuffer.WritesJoin | 09_read_write_cdev/read_write_cdev.c:118-129 | two writes in a row are one write of both texts |
| SeekBuffer.ChunkingDoesNotMatter | 09_read_write_cdev/read_write_cdev.c:113-142 | however a text is cut into writes, short and failing ones included, contents and position end up the same |
| SeekBuffer.AnyRunIsLastWriterWins | 09_read_write_cdev/read_write_cdev.c:82-154 | over all runs of seeks, reads and writes by any number of open files, positions stay within capacity and the last writer of each byte wins |
| SeekBuffer.Device.Drive | 09_read_write_cdev/read_write_cdev.c:74-154 | on the array and the positions of its open files: after any calls every byte is the last one written there, zero beyond, and positions are within capacity |
| EventLog.Log.RecordEvent | 06_procfs_seqfile/procfs_seqfile.c:49-65 | every open is counted; the array holds the first 64 since the last clear |
| EventLog.Log.Clear | 06_procfs_seqfile/procfs_seqfile.c:185-187 | empties the log and keeps the total |
| EventLog.Log.Start | 06_procfs_seqfile/procfs_seqfile.c:119-127 | takes the lock whether or not there is an element at the position |
| EventLog.Log.Next | 06_procfs_seqfile/procfs_seqfile.c:129-137 | always advances, and names the element there if there is one |
| EventLog.Log.Session | 06_procfs_seqfile/procfs_seqfile.c:99-142 | one read takes and releases the lock exactly once, even when start yields nothing, and shows the next slice of the log |
| EventLog.Log.Traverse | 06_procfs_seqfile/procfs_seqfile.c:99-142 | any schedule of reads, opens and clears on the array does what it does on the abstract log, one lock and unlock each |
| EventLog.EmittedIsPrefix | 06_procfs_seqfile/procfs_seqfile.c:119-137 | as long as clears come only before the first read, what has been emitted is exactly the log up to the position |
| EventLog.TraversalEmitsTheLog | 06_procfs_seqfile/procfs_seqfile.c:99-187 | reading to the end, in any sessions with opens and clears between them, emits exactly the final log, each event once and in order, if the position was 0 at every clear; and when no two events print alike, only if |
| EventLog.LogWithoutClears | 06_procfs_seqfile/procfs_seqfile.c:49-65 | with no clear, the log is made of all opens there were |
| EventLog.SixtyFourReadsSuffice | 06_procfs_seqfile/procfs_seqfile.c:99-137 | 64 reads of positive size in a row reach the end, whatever went before |
| EventLog.ClearSkipsEvents | 06_procfs_seqfile/procfs_seqfile.c:185-187 | with a clear in between it does not: a later event is skipped |
| EventLog.ShowIsFaithful | 06_procfs_seqfile/procfs_seqfile.c:147-150 | a printed record names the task of the event and gives its time stamp cut to whole microseconds |
| EventLog.PrintAlike | 06_procfs_seqfile/procfs_seqfile.c:144-153 | two events print alike if and only if they are of the same task in the same microsecond |

## Left out

- Modules 01, 02, 04, 05, 07, 08, 10, 13, 14 and 16: no state machine worth a claim over runs; they would only add easy members.
- Registration, teardown and error paths of init (misc_register, cdev_add, sysfs, debugfs, proc), and control writes racing module exit; of the exits only that of module 12 is modelled.
- Text parsing of sysfs and /dev commands (kstrtoint, strim): operations take the parsed value; only the mode names of module 17 are matched as text.
- Kernel log output, pids and command names; they are parameters or absent.
- 64-bit counters (event_id, counter_plain, counter_atomic, next_seq, dropped_count, samples, totals) are unbounded; the 32-bit token arithmetic is exact and wraps.
- CPU memory ordering: steps are sequentially consistent. Real time and jiffies: ticks, timers and clock readings come at any moment with any value.
- Critical sections of the ring, the token bucket, the buffer, the event log and the GPIO state are one step each, since everything they touch is touched only under their lock; in module 11, whose point is the lock, they are split into acquire, read, store and release.
- The unsynchronized reset_count increment of module 11 is one step, so lost counts of resets are not modelled.
- The unlocked reads of next_seq, dropped_count and ring_count in status_show are not modelled; the read of the mode in consume_write after the lock is dropped happens together with the critical section before it.
- Kernel helpers are modelled by what they promise: wait_event_interruptible as enqueue, check, sleep and retry; kthread_stop as set, wait and free; delayed work as at most one queued and one running instance; fixed_size_llseek, scnprintf and simple_read_from_buffer as documented; seq_read as the calls listed in the comment of module 06, its buffer as a budget of records.
- copy_to_user and copy_from_user faults, except for a faulting write of module 09; the text bq_read formats is its id.
- BlockingEvents.LabelsInOrder: ids are not claimed to be unique, because the flag is taken and the id is read in two steps and two reads may report the same id.
- KthreadDemo.Demo.ReadAll: one reader at a time, because snapshot_buf is shared and unlocked and concurrent readers overwrite each other's text.
- StressTest.Worker: one worker undisturbed; interleaved workers are runs of the state machine (NoLostUpdates, RacyVerdict). main's own spawning and joining loops are not methods.
- RaceDevice.Device.RaceWrite: one undisturbed thread; concurrent writers are runs of the state machine.
- GpioMirror.MirrorParity: the LED pin and state->led change in one step, so nothing is said about the pin while the lock is held.
- TokenBucket.SlowerIsOvertaken: for capacities and rates up to 2^30 - 1, so that the continuation it builds does not overflow.
