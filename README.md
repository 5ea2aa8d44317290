# pixonic delayed-task scheduler: a verified model of its scheduling core

The pixonic scheduler runs user callables once their `LocalDateTime` fire
time has passed. A `DelayQueue<ScheduledTask>` holds the tasks and orders
them by (fire time, sequence number). A dispatcher runnable keeps
resubmitting itself to an `ExecutorService`. On each run it awaits one due
task and drains up to 3 × 64 more. The standalone `Scheduler` and the
`SingleThreadScheduler` await first and then drain. The
`MultithreadScheduler` drains first and then awaits. This project models
that core sequentially and proves its properties.

Modules, one file each:

- `wrappers.dfy` (`Wrappers`): `Option`, `Result`, `Outcome`, `Min` and two
  small sequence lemmas.
- `tasks.dfy` (`Tasks`): `ScheduledTask` as the value `Task(time,
  seqNumber, callable)`.
  - `time` is an integer tick, read against an explicit clock value `now`.
  - `Delay` and `CompareTo` model `getDelay` and `compareTo`.
  - The static `AtomicLong` sequencer is the class `Sequencer`.
    `Sequencer.NewTask` is the task constructor.
- `delay_queue.dfy` (`DelayQueue`): the JDK delay queue as a sequence kept in
  release order.
  - `Insert` is `offer` and `DrainTo` is `drainTo`.
  - `Take` is `take`, with blocking replaced by the clock reading.
- `lifecycle.dfy` (`Lifecycle`): the LATENT → STARTED → CLOSED state machine.
  - Each move is one compare-and-set.
  - The failures carry the exact exception classes and messages of the code.
- `dispatch.dfy` (`Dispatch`): what one dispatcher iteration takes from the
  queue, written as functions.
  - `SubmitExpired` is `submitExpiredTasks`.
  - `AwaitThenDrain` and `DrainThenAwait` are the two `processTasks` orders.
- `schedulers.dfy` (`Schedulers`): the class `Scheduler`, which holds the
  state, the queue and the executor log.
  - Its `variant` (`Standalone`, `SingleThread`, `Multithread(threads)`)
    selects the `processTasks` order.
  - `Scheduler.java` is a self-contained copy of `AbstractScheduler.java`
    plus the await-first order. Both are modelled by this one class.
  - The executor is an append-only log of actions: `Submit(callable)`,
    `ExecuteDispatcher` and `Shutdown`.

A null fire time or a null callable raises `NullPointerException`
(`requireNonNull`, AbstractScheduler.java:61-62), not
`IllegalArgumentException`. The messages keep the code's spelling
("stoped").

## Model

| member | source | states |
|---|---|---|
| Tasks.Delay | src/main/java/com/pixonic/ScheduledTask.java:28-31 | the delay is the fire time minus now, so it is not positive exactly when the fire time is at or before now |
| Tasks.LongCompare | src/main/java/com/pixonic/ScheduledTask.java:51-54 | Long.compare: -1, 0 or 1, negative exactly when x < y and 0 exactly when x == y |
| Tasks.CompareTo | src/main/java/com/pixonic/ScheduledTask.java:33-55 | compareTo(null) is 1; compareTo(self) is 0; against another task with a different sequence number it is never 0, negative exactly when this task comes first in (time, seq) order and positive exactly when it comes after; against another Delayed it compares delays |
| Tasks.CompareFollowsFireTime | src/main/java/com/pixonic/ScheduledTask.java:40-48 | when fire times differ, compareTo has the sign of the fire-time comparison |
| Tasks.LaterTaskSortsAfter | src/main/java/com/pixonic/ScheduledTask.java:41-46 | on equal fire times the task with the larger sequence number compares 1 and the smaller compares -1 |
| Tasks.CompareIsAntisymmetric | src/main/java/com/pixonic/ScheduledTask.java:33-49 | for distinct sequence numbers compareTo is antisymmetric and never 0 |
| Tasks.BeforeIsStrictTotalOrder | src/main/java/com/pixonic/ScheduledTask.java:38-49 | the (time, seq) order is irreflexive, transitive, asymmetric and total on distinct sequence numbers |
| Tasks.Sequencer.constructor | src/main/java/com/pixonic/ScheduledTask.java:11 | the sequence counter starts at 0 |
| Tasks.Sequencer.NewTask | src/main/java/com/pixonic/ScheduledTask.java:17-21 | a new task gets the counter's current value as its sequence number and the counter goes up by one, so every later task gets a larger number |
| DelayQueue.Insert | src/main/java/com/pixonic/AbstractScheduler.java:64 | offer makes the queue exactly one element longer |
| DelayQueue.InsertAddsOne | src/main/java/com/pixonic/AbstractScheduler.java:64 | offer adds exactly the new task and loses none: the multiset grows by that task |
| DelayQueue.InsertKeepsSorted | src/main/java/com/pixonic/AbstractScheduler.java:64 | offering a task with a fresh sequence number keeps the queue in release order |
| DelayQueue.OfferNewTaskKeepsOrder | src/main/java/com/pixonic/AbstractScheduler.java:64 | offering the task the sequencer numbers next keeps the queue sorted, adds only that task, and keeps every queued number below the incremented counter |
| DelayQueue.SuffixKeepsOrder | src/main/java/com/pixonic/AbstractScheduler.java:75 | what is left after removing a prefix of the queue stays sorted and numbered below the counter |
| DelayQueue.InsertAfterAll | src/main/java/com/pixonic/AbstractScheduler.java:64 | a task that sorts after everything queued is appended at the end |
| DelayQueue.InsertInOrder | src/main/java/com/pixonic/AbstractScheduler.java:64 | offering tasks that already come in release order after the queue appends them in that order |
| DelayQueue.DueCountIsLongestDuePrefix | src/main/java/com/pixonic/AbstractScheduler.java:75 | every task before DueCount is due and the task at DueCount, if any, is not |
| DelayQueue.AllDueCount | src/main/java/com/pixonic/AbstractScheduler.java:75 | in a queue of due tasks the due prefix is the whole queue |
| DelayQueue.DueCountDrop | src/main/java/com/pixonic/AbstractScheduler.java:75 | removing k tasks of the due prefix shortens it by exactly k |
| DelayQueue.SortedDueIsPrefix | src/main/java/com/pixonic/AbstractScheduler.java:75 | in a sorted queue a task is due exactly when it lies within the due prefix |
| DelayQueue.HeadIsLeast | src/main/java/com/pixonic/AbstractScheduler.java:85 | the head of a sorted queue compares -1 against every other queued task |
| DelayQueue.DrainTo | src/main/java/com/pixonic/AbstractScheduler.java:75 | drainTo(buffer, max) removes min(due, max) tasks from the front, and the removed tasks followed by the rest are the old queue |
| DelayQueue.DrainToTakesDueTasks | src/main/java/com/pixonic/AbstractScheduler.java:75 | every drained task is due, and a short drain stops at a head that is not due |
| DelayQueue.Take | src/main/java/com/pixonic/AbstractScheduler.java:83-90 | take returns the head and removes it exactly when not interrupted and the head is due; otherwise it returns nothing and the queue is untouched |
| DelayQueue.PollOrderExample | src/test/java/com/pixonic/ScheduledTaskTest.java:29-43 | four tasks at times 1, 1, 5, 1 leave the queue as first, second, fourth, third |
| Lifecycle.CompareAndSet | src/main/java/com/pixonic/AbstractScheduler.java:42 | the update takes effect exactly when the current value is the expected one |
| Lifecycle.Apply | src/main/java/com/pixonic/AbstractScheduler.java:41-54 | start succeeds exactly from LATENT and moves to STARTED; stop succeeds exactly from STARTED and moves to CLOSED; a failure leaves the state alone and carries the code's IllegalStateException message |
| Lifecycle.ApplyIsOneWayStep | src/main/java/com/pixonic/AbstractScheduler.java:26-54 | start and stop move the state only LATENT to STARTED or STARTED to CLOSED |
| Lifecycle.RunNeverGoesBack | src/main/java/com/pixonic/AbstractScheduler.java:26-54 | no sequence of start/stop calls moves the lifecycle backwards |
| Lifecycle.ClosedIsFinal | src/main/java/com/pixonic/AbstractScheduler.java:49-54 | once CLOSED, the state stays CLOSED whatever is called |
| Lifecycle.EachTransitionAtMostOnce | src/main/java/com/pixonic/AbstractScheduler.java:41-54 | in any call sequence from LATENT at most one start and at most one stop succeed, and a stop succeeds only after a start has |
| Lifecycle.ScheduleCheck | src/main/java/com/pixonic/AbstractScheduler.java:57-63 | schedule passes exactly when STARTED with both arguments present; "not started" is checked first, then the null fire time, then the null callable, each with its own exception and message |
| Lifecycle.ScheduleAfterStopFails | src/test/java/com/pixonic/SchedulerTest.java:69-76 | after a successful stop, schedule fails with "Scheduler not started!" whatever start/stop calls follow |
| Dispatch.SumAppend | src/main/java/com/pixonic/AbstractScheduler.java:72-80 | proof helper of SubmitExpiredTasks: the ghost total of the `transferred` counts (the code keeps no total) grows by the last round's count |
| Dispatch.RoundShapeIsUnique | src/main/java/com/pixonic/AbstractScheduler.java:74-80 | the round counts of one drain call are determined by the number of tasks it drained |
| Dispatch.DrainLoopExit | src/main/java/com/pixonic/AbstractScheduler.java:80 | when the loop exits, after a short round or the third round, it has drained min(due, 192) tasks in a legal round shape |
| Dispatch.SubmitExpired | src/main/java/com/pixonic/AbstractScheduler.java:69-81 | one drain call submits the first min(due, 192) tasks of the queue and leaves the rest, with nothing lost |
| Dispatch.SubmitExpiredInReleaseOrder | src/main/java/com/pixonic/AbstractScheduler.java:69-81 | on a sorted queue one drain call submits at most 192 tasks, all due, in release order; the rest stays sorted; after fewer than 192 nothing due is left |
| Dispatch.DrainRoundTakesNext | src/main/java/com/pixonic/AbstractScheduler.java:75 | after k due tasks have gone, the next drainTo(64) takes the next min(due - k, 64) tasks of the queue |
| Dispatch.AwaitThenDrain | src/main/java/com/pixonic/SingleThreadScheduler.java:12-16 | await-first: the awaited task, the drained tasks and the rest make up the old queue; at most 192 drained; nothing awaited when interrupted |
| Dispatch.DrainThenAwait | src/main/java/com/pixonic/MultithreadScheduler.java:17-21 | drain-first: the drained tasks, the awaited task and the rest make up the old queue; at most 192 drained; nothing awaited when interrupted |
| Dispatch.AwaitThenDrainSubmitsDuePrefix | src/main/java/com/pixonic/Scheduler.java:68-74 | await-first submits exactly the first min(due, 193) tasks, or 192 when interrupted, with the awaited head first |
| Dispatch.DrainThenAwaitSubmitsDuePrefix | src/main/java/com/pixonic/MultithreadScheduler.java:17-21 | drain-first submits exactly the first min(due, 193) tasks, or 192 when interrupted, with the awaited task last |
| Dispatch.BothOrdersSubmitDuePrefix | src/main/java/com/pixonic/MultithreadScheduler.java:17-21 | without concurrent inserts both orders submit the same tasks in the same order and leave the same queue |
| Dispatch.SplitDuePrefix | src/main/java/com/pixonic/AbstractScheduler.java:75 | cutting a sorted queue inside its due prefix gives two sorted parts, the first all due |
| Dispatch.AwaitThenDrainInReleaseOrder | src/main/java/com/pixonic/SingleThreadScheduler.java:13-16 | await-first submissions are due, in release order and within the iteration cap, and the awaited task compares below every other queued task |
| Dispatch.DrainThenAwaitInReleaseOrder | src/main/java/com/pixonic/MultithreadScheduler.java:17-21 | drain-first submissions are due, in release order and within the iteration cap |
| Dispatch.EqualTimeTasksQueueInOrder | src/test/java/com/pixonic/SingleThreadSchedulerTest.java:51-74 | tasks with one fire time, offered in creation order, are queued in creation order |
| Dispatch.SeventyDrainInTwoRounds | src/test/java/com/pixonic/MultithreadSchedulerTest.java:19-36 | a drain call that takes seventy tasks does so in rounds of 64 and 6 |
| Dispatch.SeventyDueTasksOneIteration | src/test/java/com/pixonic/MultithreadSchedulerTest.java:19-36 | with seventy due tasks one drain call takes them all and either order submits all seventy in queue order |
| Schedulers.Submissions | src/main/java/com/pixonic/AbstractScheduler.java:77 | one Submit per task, of that task's callable, in order |
| Schedulers.SubmissionsAppend | src/main/java/com/pixonic/AbstractScheduler.java:77 | submitting two batches in turn logs the submissions of their concatenation |
| Schedulers.ThreadCountCheck | src/main/java/com/pixonic/MultithreadScheduler.java:26-31 | passes exactly for two or more threads, otherwise IllegalArgumentException with the code's message |
| Schedulers.StepSubmitsDuePrefix | src/main/java/com/pixonic/Scheduler.java:68-88 | every variant's iteration submits exactly the first min(due, cap) queued tasks in queue order and leaves the rest |
| Schedulers.InterruptedStepOnlyDrains | src/main/java/com/pixonic/Scheduler.java:68-74 | an interrupted await submits nothing; the iteration submits and leaves exactly what the drain call alone does |
| Schedulers.EarlierTimeDispatchedFirst | src/test/java/com/pixonic/SchedulerTest.java:108-132 | a task scheduled second for an earlier fire time is queued and submitted before the first one |
| Schedulers.EqualTimeBatchInScheduleOrder | src/test/java/com/pixonic/SingleThreadSchedulerTest.java:51-74 | up to 193 tasks scheduled in a row for one due fire time are all submitted in the order they were scheduled, by one iteration, under either order |
| Schedulers.Scheduler.constructor | src/main/java/com/pixonic/AbstractScheduler.java:25-33 | a new scheduler is LATENT with an empty queue and an empty executor log |
| Schedulers.Scheduler.NewMultithread | src/main/java/com/pixonic/MultithreadScheduler.java:8-10 | construction succeeds exactly for two or more threads, giving a fresh LATENT scheduler that numbers its tasks from the shared sequencer passed in and satisfies the queue invariant; otherwise it fails with the thread-count IllegalArgumentException |
| Schedulers.Scheduler.IsStarted | src/main/java/com/pixonic/AbstractScheduler.java:36-38 | true exactly when the state is STARTED |
| Schedulers.Scheduler.Start | src/main/java/com/pixonic/AbstractScheduler.java:41-46 | the outcome and new state follow the lifecycle; on success the dispatcher is executed exactly once; the queue is unchanged and its invariant kept |
| Schedulers.Scheduler.Stop | src/main/java/com/pixonic/AbstractScheduler.java:49-54 | the outcome and new state follow the lifecycle; on success shutdown is requested once; the queue is unchanged and its invariant kept |
| Schedulers.Scheduler.Schedule | src/main/java/com/pixonic/AbstractScheduler.java:57-65 | the outcome follows the guard order; on success exactly one new task, numbered above every queued one, is inserted in release order and the counter advances; on failure nothing changes; queue order is preserved |
| Schedulers.Scheduler.SubmitAll | src/main/java/com/pixonic/AbstractScheduler.java:77 | the executor log gains one submission per buffered task, in buffer order |
| Schedulers.Scheduler.DrainRound | src/main/java/com/pixonic/AbstractScheduler.java:75-79 | one round drains min(due, 64) tasks from the queue, submits them in drain order and returns their count |
| Schedulers.Scheduler.SubmitExpiredTasks | src/main/java/com/pixonic/AbstractScheduler.java:69-81 | the do-while loop leaves the queue and log that SubmitExpired describes, with 1 to 3 rounds of at most 64, every round but the last full |
| Schedulers.Scheduler.AwaitTask | src/main/java/com/pixonic/AbstractScheduler.java:83-90 | returns and removes the head exactly as take does, or nothing with the queue untouched |
| Schedulers.Scheduler.ProcessAwaitFirst | src/main/java/com/pixonic/SingleThreadScheduler.java:12-18 | await-first processTasks: the awaited task is submitted before the drained ones, and the dispatcher is executed exactly once, last |
| Schedulers.Scheduler.ProcessDrainFirst | src/main/java/com/pixonic/MultithreadScheduler.java:17-24 | drain-first processTasks: the drained tasks are submitted before the awaited one, and the dispatcher is executed exactly once, last |
| Schedulers.Scheduler.ProcessTasks | src/main/java/com/pixonic/Scheduler.java:68-74 | one dispatcher run in the variant's order: queue and log as Step describes, the dispatcher re-executed exactly once at the end, queue order preserved |

## Left out

- Thread pools and concurrency: the executor is a sequential log. Callables
  are never run, and nothing interleaves with a dispatcher run. The
  compare-and-set operations and the `AtomicLong` increment are modelled as
  single guarded assignments.
- Blocking in `take`: `Take` returns nothing both for an interrupt and when
  the head is not yet due. It stands for one wake-up of the await, not for
  the wait itself.
- The clock: `LocalDateTime.now()` is the parameter `now`, read once per
  iteration. Nanosecond conversion, its overflow and truncation, and the
  magnitude of `LocalDateTime.compareTo` are not modelled, only its sign.
- Tasks.Sequencer.NewTask: does not model the wrap-around of the 64-bit
  counter, because it would need 2^63 tasks. Sequence numbers are unbounded
  naturals.
- The no-argument constructors, which use `Runtime.availableProcessors()`,
  and `Scheduler(int threads)`'s reliance on `newFixedThreadPool` rejecting
  a count below 1. `Standalone` carries no thread count.
- Rejected submissions after `shutdown`, and the bodies and results of
  callables.
- The heap inside the JDK delay queue: only its least-first release order is
  modelled.
- The buffer of `submitExpiredTasks` is local to each `DrainRound`. It is
  empty before every round and after it, as in the code, which clears it
  after each submit.
