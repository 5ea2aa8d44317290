/** The schedulers themselves: the standalone Scheduler, the single-thread
    scheduler and the multithread scheduler share one lifecycle, one queue
    and one drain loop, and differ only in the order processTasks combines
    the await and the drain. The executor is the log of what it was asked
    to do; the dispatcher's own runs are calls of ProcessTasks. */
module Schedulers {
  import opened Wrappers
  import opened Tasks
  import opened DelayQueue
  import opened Lifecycle
  import opened Dispatch

  /** A request made to the executor: run a task's callable, run the
      dispatcher again, or shut down. */
  datatype Action = Submit(callable: CallableId) | ExecuteDispatcher | Shutdown

  /** The submissions of the callables of ts, one per task, in order. */
  function Submissions(ts: seq<Task>): (s: seq<Action>)
    ensures |s| == |ts|
    ensures forall i :: 0 <= i < |ts| ==> s[i] == Submit(ts[i].callable)
  {
    seq(|ts|, i requires 0 <= i < |ts| => Submit(ts[i].callable))
  }

  lemma SubmissionsAppend(a: seq<Task>, b: seq<Task>)
    ensures Submissions(a + b) == Submissions(a) + Submissions(b)
  {
    assert forall i :: 0 <= i < |a| + |b| ==>
      Submissions(a + b)[i] == (Submissions(a) + Submissions(b))[i];
  }

  const TOO_FEW_THREADS: string := "MultithreadScheduler can't be used with threads less 2"

  /** The guard of the multithread scheduler's executor factory. */
  function ThreadCountCheck(threads: int): (r: Outcome<Error>)
    ensures r.Pass? <==> threads >= 2
    ensures r.Fail? ==> r.error == IllegalArgument(TOO_FEW_THREADS)
  {
    if threads < 2 then Fail(IllegalArgument(TOO_FEW_THREADS)) else Pass
  }

  /** Which of the three schedulers: the standalone Scheduler and the
      single-thread scheduler await first, the multithread one drains
      first. */
  datatype Variant = Standalone | SingleThread | Multithread(threads: int)

  predicate DrainsFirst(v: Variant) {
    v.Multithread?
  }

  /** The iteration processTasks performs for variant v. */
  function Step(v: Variant, q: seq<Task>, now: int, interrupted: bool): Iteration {
    if DrainsFirst(v) then DrainThenAwait(q, now, interrupted) else AwaitThenDrain(q, now, interrupted)
  }

  /** The tasks one iteration submits, in submission order: the awaited
      task before the drained ones, or after them for the drain-first
      variant. */
  function SubmissionOrder(v: Variant, it: Iteration): seq<Task> {
    if DrainsFirst(v) then it.drained + OptionToSeq(it.awaited) else OptionToSeq(it.awaited) + it.drained
  }

  /** One dispatcher iteration submits exactly the queue's first
      min(due, cap) tasks in queue order, whatever the variant, and leaves
      the rest queued. */
  lemma StepSubmitsDuePrefix(v: Variant, q: seq<Task>, now: int, interrupted: bool)
    ensures var k := Min(DueCount(q, now), IterationCap(interrupted));
            var it := Step(v, q, now, interrupted);
            SubmissionOrder(v, it) == q[..k] && it.rest == q[k..]
  {
    if DrainsFirst(v) {
      DrainThenAwaitSubmitsDuePrefix(q, now, interrupted);
    } else {
      AwaitThenDrainSubmitsDuePrefix(q, now, interrupted);
    }
  }

  /** An interrupted await submits nothing of its own: the iteration
      submits what the drain loop alone takes and leaves what it leaves. */
  lemma InterruptedStepOnlyDrains(v: Variant, q: seq<Task>, now: int)
    ensures var it := Step(v, q, now, true);
            && it.awaited.None?
            && SubmissionOrder(v, it) == SubmitExpired(q, now).submitted
            && it.rest == SubmitExpired(q, now).rest
  {
    var it := Step(v, q, now, true);
    assert OptionToSeq(it.awaited) == [];
    assert Take(SubmitExpired(q, now).rest, now, true).1 == SubmitExpired(q, now).rest;
  }

  class Scheduler {
    const variant: Variant
    /** The shared, static sequence counter of ScheduledTask. */
    const sequencer: Sequencer
    var state: State
    var queue: seq<Task>
    var log: seq<Action>

    /** The queue is in release order and every queued task was numbered
        before the sequencer's current value. */
    ghost predicate Valid()
      reads this, sequencer
    {
      Sorted(queue) && NumberedBelow(queue, sequencer.next)
    }

    /** A new scheduler is LATENT, its queue empty and its executor idle.
        A multithread scheduler exists only with at least two threads. */
    constructor (variant: Variant, sequencer: Sequencer)
      requires variant.Multithread? ==> ThreadCountCheck(variant.threads).Pass?
      ensures this.variant == variant && this.sequencer == sequencer
      ensures state == Latent && queue == [] && log == []
      ensures Valid()
    {
      this.variant := variant;
      this.sequencer := sequencer;
      state := Latent;
      queue := [];
      log := [];
    }

    /** new MultithreadScheduler(threads): rejected with
        IllegalArgumentException below two threads. */
    static method NewMultithread(threads: int, sequencer: Sequencer) returns (r: Result<Scheduler, Error>)
      ensures r.Success? <==> threads >= 2
      ensures r.Failure? ==> r.error == IllegalArgument(TOO_FEW_THREADS)
      ensures r.Success? ==> fresh(r.value) && r.value.variant == Multithread(threads)
                             && r.value.sequencer == sequencer
                             && r.value.state == Latent && r.value.queue == [] && r.value.log == []
                             && r.value.Valid()
    {
      var check := ThreadCountCheck(threads);
      if check.Fail? {
        return Failure(check.error);
      }
      var s := new Scheduler(Multithread(threads), sequencer);
      r := Success(s);
    }

    method IsStarted() returns (b: bool)
      ensures b <==> state == Started
    {
      b := state == Started;
    }

    /** start(): LATENT to STARTED by compare-and-set, and on success the
        dispatcher is handed to the executor once. */
    method Start() returns (r: Outcome<Error>)
      requires Valid()
      modifies this
      ensures (r, state) == Apply(old(state), StartCall)
      ensures log == old(log) + (if r.Pass? then [ExecuteDispatcher] else [])
      ensures queue == old(queue)
      ensures Valid()
    {
      var (swapped, s') := CompareAndSet(state, Latent, Started);
      state := s';
      if !swapped {
        return Fail(IllegalState(START_FAILED));
      }
      log := log + [ExecuteDispatcher];
      r := Pass;
    }

    /** stop(): STARTED to CLOSED by compare-and-set, and on success the
        executor is asked to shut down. */
    method Stop() returns (r: Outcome<Error>)
      requires Valid()
      modifies this
      ensures (r, state) == Apply(old(state), StopCall)
      ensures log == old(log) + (if r.Pass? then [Shutdown] else [])
      ensures queue == old(queue)
      ensures Valid()
    {
      var (swapped, s') := CompareAndSet(state, Started, Closed);
      state := s';
      if !swapped {
        return Fail(IllegalState(STOP_FAILED));
      }
      log := log + [Shutdown];
      r := Pass;
    }

    /** schedule(time, callable), a missing argument standing for null: on
        success exactly one new task, numbered above every queued task,
        joins the queue at its place in the release order; on any failure
        nothing changes. */
    method Schedule(time: Option<int>, callable: Option<CallableId>) returns (r: Outcome<Error>)
      requires Valid()
      modifies this, sequencer
      ensures r == ScheduleCheck(old(state), time, callable)
      ensures state == old(state) && log == old(log)
      ensures r.Pass? ==>
                var t := Task(time.value, old(sequencer.next), callable.value);
                && queue == Insert(old(queue), t)
                && multiset(queue) == multiset(old(queue)) + multiset{t}
                && (forall i :: 0 <= i < |old(queue)| ==> old(queue)[i].seqNumber < t.seqNumber)
                && sequencer.next == old(sequencer.next) + 1
      ensures r.Fail? ==> queue == old(queue) && sequencer.next == old(sequencer.next)
      ensures Valid()
    {
      var started := IsStarted();
      if !started {
        return Fail(IllegalState(NOT_STARTED));
      }
      if time.None? {
        return Fail(NullPointer(NULL_TIME));
      }
      if callable.None? {
        return Fail(NullPointer(NULL_CALLABLE));
      }
      OfferNewTaskKeepsOrder(queue, sequencer.next, time.value, callable.value);
      var t := sequencer.NewTask(time.value, callable.value);
      queue := Insert(queue, t);
      r := Pass;
    }

    /** buffer.forEach(t -> executor.submit(t.getCallable())). */
    method SubmitAll(buffer: seq<Task>)
      modifies this
      ensures log == old(log) + Submissions(buffer)
      ensures state == old(state) && queue == old(queue)
    {
      var i := 0;
      while i < |buffer|
        invariant 0 <= i <= |buffer|
        invariant log == old(log) + Submissions(buffer[..i])
        invariant state == old(state) && queue == old(queue)
      {
        SubmissionsAppend(buffer[..i], [buffer[i]]);
        assert buffer[..i + 1] == buffer[..i] + [buffer[i]];
        log := log + [Submit(buffer[i].callable)];
        i := i + 1;
      }
    }

    /** One round of the do-while loop of submitExpiredTasks:
        drainTo(buffer, 64), every drained task's callable submitted in
        drain order, and the buffer cleared. Returns `transferred`. */
    method DrainRound(now: int) returns (transferred: nat)
      modifies this
      ensures var (batch, rest) := DrainTo(old(queue), now, MAX_TASKS_PER_ITERATION);
              && queue == rest
              && log == old(log) + Submissions(batch)
              && transferred == |batch|
      ensures state == old(state)
    {
      var buffer: seq<Task> := [];
      var (batch, rest) := DrainTo(queue, now, MAX_TASKS_PER_ITERATION);
      buffer := buffer + batch;
      queue := rest;
      transferred := |batch|;
      assert buffer == batch;
      if buffer != [] {
        SubmitAll(buffer);
        buffer := [];
      } else {
        assert Submissions(batch) == [];
      }
    }

    /** submitExpiredTasks(): up to three rounds of drainTo(buffer, 64),
        going round again only after a full batch. The ghost result lists
        the `transferred` count of every round. */
    method SubmitExpiredTasks(now: int) returns (ghost rounds: seq<nat>)
      modifies this
      ensures var d := SubmitExpired(old(queue), now);
              && queue == d.rest
              && log == old(log) + Submissions(d.submitted)
              && RoundShape(rounds, |d.submitted|)
      ensures state == old(state)
    {
      ghost var q0 := queue;
      ghost var d0 := DueCount(q0, now);
      ghost var k: nat := 0;
      var transferred: nat;
      var iter: nat := ITERATION_PER_STEP;
      rounds := [];
      while true
        invariant 1 <= iter <= ITERATION_PER_STEP
        invariant |rounds| + iter == ITERATION_PER_STEP
        invariant forall i :: 0 <= i < |rounds| ==> rounds[i] == MAX_TASKS_PER_ITERATION
        invariant k == Sum(rounds) == MAX_TASKS_PER_ITERATION * |rounds| <= d0
        invariant state == old(state)
        invariant queue == q0[k..]
        invariant log == old(log) + Submissions(q0[..k])
        decreases iter
      {
        DrainRoundTakesNext(q0, now, k);
        ghost var batch := DrainTo(queue, now, MAX_TASKS_PER_ITERATION).0;
        SubmissionsAppend(q0[..k], batch);
        AppendAssoc(old(log), Submissions(q0[..k]), Submissions(batch));
        transferred := DrainRound(now);
        SumAppend(rounds, transferred);
        if transferred != MAX_TASKS_PER_ITERATION || iter == 1 {
          DrainLoopExit(d0, rounds, transferred);
        }
        k := k + transferred;
        rounds := rounds + [transferred];
        assert log == old(log) + Submissions(q0[..k]);
        assert queue == q0[k..];
        if transferred != MAX_TASKS_PER_ITERATION {
          break;
        }
        iter := iter - 1;
        if iter == 0 {
          break;
        }
      }
      assert k == Min(d0, MAX_TASKS_PER_STEP);
      assert SubmitExpired(q0, now).submitted == q0[..k];
    }

    /** awaitTask(): the queue's head when it is due and the wait was not
        interrupted, and nothing otherwise. */
    method AwaitTask(now: int, interrupted: bool) returns (task: Option<Task>)
      modifies this
      ensures (task, queue) == Take(old(queue), now, interrupted)
      ensures state == old(state) && log == old(log)
    {
      if interrupted || queue == [] || !IsDue(queue[0], now) {
        return None;
      }
      task := Some(queue[0]);
      queue := queue[1..];
    }

    /** processTasks() of the standalone and the single-thread scheduler:
        await, submit the awaited task if there is one, then drain; the
        dispatcher is executed again once, last. */
    method ProcessAwaitFirst(now: int, interrupted: bool) returns (ghost it: Iteration)
      modifies this
      ensures it == AwaitThenDrain(old(queue), now, interrupted)
      ensures queue == it.rest
      ensures log == old(log) + Submissions(OptionToSeq(it.awaited) + it.drained) + [ExecuteDispatcher]
      ensures state == old(state)
    {
      var task := AwaitTask(now, interrupted);
      if task.Some? {
        log := log + [Submit(task.value.callable)];
      }
      ghost var awaitedLog := Submissions(OptionToSeq(task));
      assert log == old(log) + awaitedLog;
      ghost var d := SubmitExpired(queue, now);
      ghost var rounds := SubmitExpiredTasks(now);
      AppendAssoc(old(log), awaitedLog, Submissions(d.submitted));
      SubmissionsAppend(OptionToSeq(task), d.submitted);
      log := log + [ExecuteDispatcher];
      it := Iteration(task, d.submitted, d.rest);
    }

    /** processTasks() of the multithread scheduler: drain, then await
        and submit the awaited task if there is one; the dispatcher is
        executed again once, last. */
    method ProcessDrainFirst(now: int, interrupted: bool) returns (ghost it: Iteration)
      modifies this
      ensures it == DrainThenAwait(old(queue), now, interrupted)
      ensures queue == it.rest
      ensures log == old(log) + Submissions(it.drained + OptionToSeq(it.awaited)) + [ExecuteDispatcher]
      ensures state == old(state)
    {
      ghost var d := SubmitExpired(queue, now);
      ghost var rounds := SubmitExpiredTasks(now);
      ghost var drainedLog := log;
      var task := AwaitTask(now, interrupted);
      if task.Some? {
        log := log + [Submit(task.value.callable)];
      }
      assert log == drainedLog + Submissions(OptionToSeq(task));
      AppendAssoc(old(log), Submissions(d.submitted), Submissions(OptionToSeq(task)));
      SubmissionsAppend(d.submitted, OptionToSeq(task));
      log := log + [ExecuteDispatcher];
      it := Iteration(task, d.submitted, queue);
    }

    /** The dispatcher's run, processTasks(), in the order of the
        scheduler's variant. */
    method ProcessTasks(now: int, interrupted: bool) returns (ghost it: Iteration)
      requires Valid()
      modifies this
      ensures it == Step(variant, old(queue), now, interrupted)
      ensures queue == it.rest
      ensures log == old(log) + Submissions(SubmissionOrder(variant, it)) + [ExecuteDispatcher]
      ensures state == old(state)
      ensures Valid()
    {
      ghost var q0 := queue;
      if DrainsFirst(variant) {
        it := ProcessDrainFirst(now, interrupted);
      } else {
        it := ProcessAwaitFirst(now, interrupted);
      }
      SuffixKeepsOrder(q0, sequencer.next, |q0| - |queue|);
    }
  }

  /** Two tasks scheduled in a row, the second for an earlier fire time:
      once both are due, one uninterrupted iteration submits the second
      before the first, whatever the variant. */
  lemma EarlierTimeDispatchedFirst(v: Variant, a: Task, b: Task, now: int)
    requires a.seqNumber < b.seqNumber && b.time < a.time && a.time <= now
    ensures InsertAll([], [a, b]) == [b, a]
    ensures var it := Step(v, InsertAll([], [a, b]), now, false);
            SubmissionOrder(v, it) == [b, a] && it.rest == []
  {
    assert Insert([], a) == [a];
    assert [a, b][1..] == [b] && [b][1..] == [];
    assert Insert([a], b) == [b, a];
    assert InsertAll([b, a], []) == [b, a];
    assert InsertAll([a], [b]) == [b, a];
    AllDueCount([b, a], now);
    StepSubmitsDuePrefix(v, [b, a], now, false);
    var k := Min(DueCount([b, a], now), IterationCap(false));
    assert [b, a][..k] == [b, a];
  }

  /** The batch example of the tests, for both dispatcher orders: up to
      193 tasks scheduled in a row for one fire time (the tests use
      seventy) are all submitted, in the order they were scheduled, by a
      single uninterrupted dispatcher iteration once they are due. */
  lemma EqualTimeBatchInScheduleOrder(v: Variant, ts: seq<Task>, time: int, now: int)
    requires |ts| <= IterationCap(false)
    requires forall i :: 0 <= i < |ts| ==> ts[i].time == time
    requires time <= now
    requires forall i, j :: 0 <= i < j < |ts| ==> ts[i].seqNumber < ts[j].seqNumber
    ensures var q := InsertAll([], ts);
            var it := Step(v, q, now, false);
            SubmissionOrder(v, it) == ts && it.rest == []
  {
    EqualTimeTasksQueueInOrder(ts);
    AllDueCount(ts, now);
    StepSubmitsDuePrefix(v, ts, now, false);
    var k := Min(DueCount(ts, now), IterationCap(false));
    assert ts[..k] == ts;
  }
}
