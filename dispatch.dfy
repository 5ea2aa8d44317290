/** What one dispatcher iteration takes from the delay queue, as functions
    of the queue and the clock: the bounded drain loop of
    submitExpiredTasks and the two orders in which processTasks combines it
    with a single await. */
module Dispatch {
  import opened Wrappers
  import opened Tasks
  import opened DelayQueue

  const MAX_TASKS_PER_ITERATION: nat := 64
  const ITERATION_PER_STEP: nat := 3

  /** The most tasks one call of submitExpiredTasks can hand out. */
  const MAX_TASKS_PER_STEP: nat := MAX_TASKS_PER_ITERATION * ITERATION_PER_STEP

  function Sum(s: seq<nat>): nat
    decreases |s|
  {
    if s == [] then 0 else s[0] + Sum(s[1..])
  }

  lemma {:induction false} SumAppend(s: seq<nat>, x: nat)
    ensures Sum(s + [x]) == Sum(s) + x
    decreases |s|
  {
    if s == [] {
      assert [] + [x] == [x];
      assert [x][1..] == [];
    } else {
      assert (s + [x])[1..] == s[1..] + [x];
      SumAppend(s[1..], x);
    }
  }

  /** The `transferred` counts of the rounds of one call of
      submitExpiredTasks that drained n tasks in all: one to three rounds,
      at most 64 each, every round but the last a full 64, and a last
      round that is short unless it was the third. */
  predicate RoundShape(rounds: seq<nat>, n: nat) {
    && 1 <= |rounds| <= ITERATION_PER_STEP
    && (forall i :: 0 <= i < |rounds| ==> rounds[i] <= MAX_TASKS_PER_ITERATION)
    && (forall i :: 0 <= i < |rounds| - 1 ==> rounds[i] == MAX_TASKS_PER_ITERATION)
    && (|rounds| < ITERATION_PER_STEP ==> rounds[|rounds| - 1] < MAX_TASKS_PER_ITERATION)
    && Sum(rounds) == n
  }

  /** The rounds of a call are fixed by how many tasks it drained. */
  lemma RoundShapeIsUnique(r1: seq<nat>, r2: seq<nat>, n: nat)
    requires RoundShape(r1, n) && RoundShape(r2, n)
    ensures r1 == r2
  {
    RoundSums(r1);
    RoundSums(r2);
    assert |r1| == |r2|;
  }

  /** Sum of a round shape by its length. */
  lemma RoundSums(r: seq<nat>)
    requires 1 <= |r| <= ITERATION_PER_STEP
    ensures |r| == 1 ==> Sum(r) == r[0]
    ensures |r| == 2 ==> Sum(r) == r[0] + r[1]
    ensures |r| == 3 ==> Sum(r) == r[0] + r[1] + r[2]
  {
    if |r| == 1 {
      assert r[1..] == [];
    } else if |r| == 2 {
      assert r[1..][1..] == [];
    } else {
      assert r[1..][1..][1..] == [];
    }
  }

  /** How the drain loop ends: after full rounds that took 64 tasks each,
      a last round of m that is short, or the third, completes a round
      shape, and in all the call took min(due, 192) tasks. */
  lemma DrainLoopExit(due: nat, rounds: seq<nat>, m: nat)
    requires |rounds| < ITERATION_PER_STEP
    requires forall i :: 0 <= i < |rounds| ==> rounds[i] == MAX_TASKS_PER_ITERATION
    requires Sum(rounds) == MAX_TASKS_PER_ITERATION * |rounds| <= due
    requires m == Min(due - Sum(rounds), MAX_TASKS_PER_ITERATION)
    requires m != MAX_TASKS_PER_ITERATION || |rounds| == ITERATION_PER_STEP - 1
    ensures Sum(rounds + [m]) == Min(due, MAX_TASKS_PER_STEP)
    ensures RoundShape(rounds + [m], Min(due, MAX_TASKS_PER_STEP))
  {
    SumAppend(rounds, m);
    var r := rounds + [m];
    assert forall i :: 0 <= i < |rounds| ==> r[i] == rounds[i];
  }

  /** The outcome of one call of submitExpiredTasks: the tasks submitted, in
      submission order, and the queue left behind. */
  datatype Drained = Drained(submitted: seq<Task>, rest: seq<Task>)

  /** submitExpiredTasks on queue q takes the queue's first min(due, 192)
      tasks and leaves the rest. */
  function SubmitExpired(q: seq<Task>, now: int): (r: Drained)
    ensures |r.submitted| == Min(DueCount(q, now), MAX_TASKS_PER_STEP)
    ensures r.submitted + r.rest == q
  {
    var k := Min(DueCount(q, now), MAX_TASKS_PER_STEP);
    assert q[..k] + q[k..] == q;
    Drained(q[..k], q[k..])
  }

  /** What one call of submitExpiredTasks submits and leaves behind, on a
      sorted queue: at most 192 tasks, all due, in release order, followed in
      the queue by every task it did not take; and when it submitted fewer
      than 192, none of the tasks left behind is due. */
  lemma SubmitExpiredInReleaseOrder(q: seq<Task>, now: int)
    requires Sorted(q)
    ensures var r := SubmitExpired(q, now);
            && |r.submitted| <= MAX_TASKS_PER_STEP
            && Sorted(r.submitted) && Sorted(r.rest)
            && (forall i :: 0 <= i < |r.submitted| ==> IsDue(r.submitted[i], now))
            && (|r.submitted| < MAX_TASKS_PER_STEP ==> forall i :: 0 <= i < |r.rest| ==> !IsDue(r.rest[i], now))
  {
    var r := SubmitExpired(q, now);
    var k := |r.submitted|;
    SortedDueIsPrefix(q, now);
    assert r.submitted == q[..k] && r.rest == q[k..];
    assert forall i :: 0 <= i < |q| - k ==> r.rest[i] == q[k + i];
    assert forall i :: 0 <= i < k ==> r.submitted[i] == q[i];
  }

  /** One round of the drain loop after k of the due tasks of q have
      been taken: drainTo takes the next min(due - k, 64) tasks of q. */
  lemma DrainRoundTakesNext(q: seq<Task>, now: int, k: nat)
    requires k <= DueCount(q, now)
    ensures var (batch, rest) := DrainTo(q[k..], now, MAX_TASKS_PER_ITERATION);
            && |batch| == Min(DueCount(q, now) - k, MAX_TASKS_PER_ITERATION)
            && q[..k] + batch == q[..k + |batch|] && rest == q[k + |batch|..]
  {
    DueCountDrop(q, now, k);
    var (batch, rest) := DrainTo(q[k..], now, MAX_TASKS_PER_ITERATION);
    SliceJoin(q, k, |batch|);
  }

  /** One iteration of the dispatcher: the task the await produced, if any,
      the tasks the drain loop took, and the queue left behind. */
  datatype Iteration = Iteration(awaited: Option<Task>, drained: seq<Task>, rest: seq<Task>)

  /** The single-thread order (and the standalone scheduler's): await one
      task, then run the drain loop on what is left. */
  function AwaitThenDrain(q: seq<Task>, now: int, interrupted: bool): (it: Iteration)
    ensures OptionToSeq(it.awaited) + it.drained + it.rest == q
    ensures |it.drained| <= MAX_TASKS_PER_STEP
    ensures interrupted ==> it.awaited.None?
  {
    var (awaited, q1) := Take(q, now, interrupted);
    var d := SubmitExpired(q1, now);
    Iteration(awaited, d.submitted, d.rest)
  }

  /** The multithread order: run the drain loop, then await one task from
      what is left. */
  function DrainThenAwait(q: seq<Task>, now: int, interrupted: bool): (it: Iteration)
    ensures it.drained + OptionToSeq(it.awaited) + it.rest == q
    ensures |it.drained| <= MAX_TASKS_PER_STEP
    ensures interrupted ==> it.awaited.None?
  {
    var d := SubmitExpired(q, now);
    var (awaited, q2) := Take(d.rest, now, interrupted);
    Iteration(awaited, d.submitted, q2)
  }

  /** How many tasks one iteration can submit: the drain bound, plus the
      awaited task unless the await was interrupted. */
  function IterationCap(interrupted: bool): nat {
    MAX_TASKS_PER_STEP + (if interrupted then 0 else 1)
  }

  /** The await-first order submits the first min(due, cap) tasks of the
      queue, the awaited head first, and leaves the rest. */
  lemma {:induction false} AwaitThenDrainSubmitsDuePrefix(q: seq<Task>, now: int, interrupted: bool)
    ensures var k := Min(DueCount(q, now), IterationCap(interrupted));
            var a := AwaitThenDrain(q, now, interrupted);
            OptionToSeq(a.awaited) + a.drained == q[..k] && a.rest == q[k..]
  {
    var d := DueCount(q, now);
    var (awaited, q1) := Take(q, now, interrupted);
    var r := SubmitExpired(q1, now);
    if awaited.Some? {
      DueCountDrop(q, now, 1);
      var j := Min(d - 1, MAX_TASKS_PER_STEP);
      assert r.submitted == q1[..j] && r.rest == q1[j..];
      SliceJoin(q, 1, j);
      assert [q[0]] == q[..1];
    } else {
      assert q1 == q;
      assert r.submitted == q[..Min(d, MAX_TASKS_PER_STEP)] && r.rest == q[Min(d, MAX_TASKS_PER_STEP)..];
    }
  }

  /** The drain-first order submits the first min(due, cap) tasks of the
      queue, the awaited task last, and leaves the rest. */
  lemma {:induction false} DrainThenAwaitSubmitsDuePrefix(q: seq<Task>, now: int, interrupted: bool)
    ensures var k := Min(DueCount(q, now), IterationCap(interrupted));
            var b := DrainThenAwait(q, now, interrupted);
            b.drained + OptionToSeq(b.awaited) == q[..k] && b.rest == q[k..]
  {
    var m := Min(DueCount(q, now), MAX_TASKS_PER_STEP);
    var r := SubmitExpired(q, now);
    assert r.submitted == q[..m] && r.rest == q[m..];
    DueCountDrop(q, now, m);
    var (awaited, q2) := Take(r.rest, now, interrupted);
    if awaited.Some? {
      assert q[..m] + [q[m..][0]] == q[..m + 1];
      assert q[m..][1..] == q[m + 1..];
    }
  }

  /** Without concurrent inserts both orders submit the same thing: the
      first min(due, cap) tasks of the queue, in queue order, leaving the
      rest. */
  lemma {:induction false} BothOrdersSubmitDuePrefix(q: seq<Task>, now: int, interrupted: bool)
    ensures var a := AwaitThenDrain(q, now, interrupted);
            var b := DrainThenAwait(q, now, interrupted);
            && OptionToSeq(a.awaited) + a.drained == b.drained + OptionToSeq(b.awaited)
            && a.rest == b.rest
  {
    AwaitThenDrainSubmitsDuePrefix(q, now, interrupted);
    DrainThenAwaitSubmitsDuePrefix(q, now, interrupted);
  }

  /** Splitting a sorted queue inside its due prefix gives two sorted
      parts, the first of them due all through. */
  lemma SplitDuePrefix(q: seq<Task>, now: int, k: nat)
    requires Sorted(q) && k <= DueCount(q, now)
    ensures Sorted(q[..k]) && Sorted(q[k..])
    ensures forall i :: 0 <= i < k ==> IsDue(q[..k][i], now)
  {
    DueCountIsLongestDuePrefix(q, now);
    assert forall i :: 0 <= i < |q| - k ==> q[k..][i] == q[k + i];
    assert forall i :: 0 <= i < k ==> q[..k][i] == q[i];
  }

  /** On a sorted queue the await-first order submits, in release order,
      only due tasks, at most the iteration cap of them; the awaited task
      is the queue's head, the least task under compareTo. */
  lemma AwaitThenDrainInReleaseOrder(q: seq<Task>, now: int, interrupted: bool)
    requires Sorted(q)
    ensures var a := AwaitThenDrain(q, now, interrupted);
            var s := OptionToSeq(a.awaited) + a.drained;
            && Sorted(s) && Sorted(a.rest)
            && |s| <= IterationCap(interrupted)
            && (forall i :: 0 <= i < |s| ==> IsDue(s[i], now))
            && (a.awaited.Some? ==> forall i :: 0 < i < |q| ==> CompareTo(a.awaited.value, TaskRef(q[i]), now) == -1)
  {
    AwaitThenDrainSubmitsDuePrefix(q, now, interrupted);
    SplitDuePrefix(q, now, Min(DueCount(q, now), IterationCap(interrupted)));
    if |q| > 0 {
      HeadIsLeast(q, now);
    }
  }

  /** On a sorted queue the drain-first order submits, in release order,
      only due tasks, at most the iteration cap of them. */
  lemma DrainThenAwaitInReleaseOrder(q: seq<Task>, now: int, interrupted: bool)
    requires Sorted(q)
    ensures var b := DrainThenAwait(q, now, interrupted);
            var s := b.drained + OptionToSeq(b.awaited);
            && Sorted(s) && Sorted(b.rest)
            && |s| <= IterationCap(interrupted)
            && (forall i :: 0 <= i < |s| ==> IsDue(s[i], now))
  {
    DrainThenAwaitSubmitsDuePrefix(q, now, interrupted);
    SplitDuePrefix(q, now, Min(DueCount(q, now), IterationCap(interrupted)));
  }

  /** Tasks scheduled for the same fire time, in creation order, are
      queued in creation order: first scheduled, first released. */
  lemma EqualTimeTasksQueueInOrder(ts: seq<Task>)
    requires forall i :: 0 <= i < |ts| ==> ts[i].time == ts[0].time
    requires forall i, j :: 0 <= i < j < |ts| ==> ts[i].seqNumber < ts[j].seqNumber
    ensures InsertAll([], ts) == ts
  {
    forall i, j | 0 <= i < j < |ts|
      ensures Before(ts[i], ts[j])
    {
    }
    var q: seq<Task> := [];
    assert q + ts == ts;
    InsertInOrder(q, ts);
  }

  /** A call that drains seventy tasks does so as a round of 64 and a
      round of 6. */
  lemma SeventyDrainInTwoRounds(rounds: seq<nat>)
    requires RoundShape(rounds, 70)
    ensures rounds == [64, 6]
  {
    assert [64, 6][1..][1..] == [];
    assert RoundShape([64, 6], 70);
    RoundShapeIsUnique(rounds, [64, 6], 70);
  }

  /** Seventy due tasks: one call of the drain loop takes them all, and
      either dispatcher order submits all seventy in queue order within one
      iteration. */
  lemma SeventyDueTasksOneIteration(ts: seq<Task>, now: int)
    requires |ts| == 70
    requires forall i :: 0 <= i < |ts| ==> IsDue(ts[i], now)
    ensures SubmitExpired(ts, now) == Drained(ts, [])
    ensures var a := AwaitThenDrain(ts, now, false); OptionToSeq(a.awaited) + a.drained == ts
    ensures var b := DrainThenAwait(ts, now, false); b.drained + OptionToSeq(b.awaited) == ts
  {
    AllDueCount(ts, now);
    assert ts[..70] == ts;
    AwaitThenDrainSubmitsDuePrefix(ts, now, false);
    DrainThenAwaitSubmitsDuePrefix(ts, now, false);
  }
}
