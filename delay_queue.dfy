/** The delay queue the schedulers hold, seen through its observable order:
    a sequence of tasks kept sorted by (fire time, sequence), read against an
    explicit clock value `now`. The JDK keeps a binary heap; only its
    least-first release order is modelled. */
module DelayQueue {
  import opened Wrappers
  import opened Tasks

  /** Strictly increasing in the release order. */
  predicate Sorted(q: seq<Task>) {
    forall i, j :: 0 <= i < j < |q| ==> Before(q[i], q[j])
  }

  /** Every task in q was numbered before the sequencer reached n. */
  predicate NumberedBelow(q: seq<Task>, n: nat) {
    forall i :: 0 <= i < |q| ==> q[i].seqNumber < n
  }

  /** offer: insert a task at its place in the release order. */
  function Insert(q: seq<Task>, t: Task): (r: seq<Task>)
    ensures |r| == |q| + 1
  {
    if q == [] || Before(t, q[0]) then [t] + q
    else [q[0]] + Insert(q[1..], t)
  }

  /** offer adds exactly the one task and loses none. */
  lemma {:induction false} InsertAddsOne(q: seq<Task>, t: Task)
    ensures multiset(Insert(q, t)) == multiset(q) + multiset{t}
  {
    if q != [] && !Before(t, q[0]) {
      InsertAddsOne(q[1..], t);
      assert q == [q[0]] + q[1..];
    }
  }

  /** Inserting a task whose sequence number is new keeps the queue sorted. */
  lemma {:induction false} InsertKeepsSorted(q: seq<Task>, t: Task)
    requires Sorted(q)
    requires forall i :: 0 <= i < |q| ==> q[i].seqNumber != t.seqNumber
    ensures Sorted(Insert(q, t))
  {
    if q == [] || Before(t, q[0]) {
    } else {
      assert Before(q[0], t);
      var tail := q[1..];
      InsertKeepsSorted(tail, t);
      InsertAddsOne(tail, t);
      var rest := Insert(tail, t);
      forall k | 0 <= k < |rest|
        ensures Before(q[0], rest[k])
      {
        assert rest[k] in multiset(rest);
        assert rest[k] in multiset(tail) || rest[k] == t;
        if rest[k] != t {
          var m :| 0 <= m < |tail| && tail[m] == rest[k];
          assert q[m + 1] == rest[k];
        }
      }
    }
  }

  /** Offering a task numbered by the sequencer's current value to a sorted
      queue of tasks numbered below it keeps the queue sorted, adds exactly
      that task, and leaves every queued task numbered below the
      incremented counter. */
  lemma OfferNewTaskKeepsOrder(q: seq<Task>, n: nat, time: int, callable: CallableId)
    requires Sorted(q) && NumberedBelow(q, n)
    ensures var r := Insert(q, Task(time, n, callable));
            && Sorted(r) && NumberedBelow(r, n + 1)
            && multiset(r) == multiset(q) + multiset{Task(time, n, callable)}
  {
    var t := Task(time, n, callable);
    InsertKeepsSorted(q, t);
    InsertAddsOne(q, t);
    var r := Insert(q, t);
    forall i | 0 <= i < |r|
      ensures r[i].seqNumber < n + 1
    {
      assert r[i] in multiset(r);
      if r[i] != t {
        assert r[i] in multiset(q);
        var m :| 0 <= m < |q| && q[m] == r[i];
      }
    }
  }

  /** What is left after removing a prefix keeps the queue's order and
      numbering. */
  lemma SuffixKeepsOrder(q: seq<Task>, n: nat, k: nat)
    requires Sorted(q) && NumberedBelow(q, n) && k <= |q|
    ensures Sorted(q[k..]) && NumberedBelow(q[k..], n)
  {
    assert forall i :: 0 <= i < |q| - k ==> q[k..][i] == q[k + i];
  }

  /** A task that comes after everything already queued is appended. */
  lemma {:induction false} InsertAfterAll(q: seq<Task>, t: Task)
    requires forall i :: 0 <= i < |q| ==> Before(q[i], t)
    ensures Insert(q, t) == q + [t]
  {
    if q != [] {
      assert !Before(t, q[0]);
      InsertAfterAll(q[1..], t);
      assert q == [q[0]] + q[1..];
    }
  }

  /** The queue after offering the tasks of ts one after another. */
  function InsertAll(q: seq<Task>, ts: seq<Task>): (r: seq<Task>)
    ensures |r| == |q| + |ts|
    decreases |ts|
  {
    if ts == [] then q
    else InsertAll(Insert(q, ts[0]), ts[1..])
  }

  /** Offering tasks that are already in release order after the queue's
      contents leaves them in that order: first scheduled, first released. */
  lemma {:induction false} InsertInOrder(q: seq<Task>, ts: seq<Task>)
    requires Sorted(q + ts)
    ensures InsertAll(q, ts) == q + ts
    decreases |ts|
  {
    if ts != [] {
      forall i | 0 <= i < |q|
        ensures Before(q[i], ts[0])
      {
        assert (q + ts)[i] == q[i] && (q + ts)[|q|] == ts[0];
      }
      InsertAfterAll(q, ts[0]);
      assert (q + [ts[0]]) + ts[1..] == q + ts;
      InsertInOrder(q + [ts[0]], ts[1..]);
    }
  }

  /** The length of the longest prefix of q whose tasks are all due. */
  function DueCount(q: seq<Task>, now: int): (n: nat)
    ensures n <= |q|
  {
    if q == [] || !IsDue(q[0], now) then 0 else 1 + DueCount(q[1..], now)
  }

  /** DueCount is the longest due prefix: every task before it is due and
      the task at it, if any, is not. */
  lemma {:induction false} DueCountIsLongestDuePrefix(q: seq<Task>, now: int)
    ensures forall i :: 0 <= i < DueCount(q, now) ==> IsDue(q[i], now)
    ensures DueCount(q, now) < |q| ==> !IsDue(q[DueCount(q, now)], now)
  {
    if q != [] && IsDue(q[0], now) {
      DueCountIsLongestDuePrefix(q[1..], now);
      assert forall i :: 1 <= i < |q| ==> q[i] == q[1..][i - 1];
    }
  }

  /** A queue whose tasks are all due is due all through. */
  lemma {:induction false} AllDueCount(q: seq<Task>, now: int)
    requires forall i :: 0 <= i < |q| ==> IsDue(q[i], now)
    ensures DueCount(q, now) == |q|
  {
    DueCountIsLongestDuePrefix(q, now);
  }

  /** Dropping part of the due prefix shortens it by exactly that much. */
  lemma {:induction false} DueCountDrop(q: seq<Task>, now: int, k: nat)
    requires k <= DueCount(q, now)
    ensures DueCount(q[k..], now) == DueCount(q, now) - k
    decreases k
  {
    if k > 0 {
      assert q[k..] == q[1..][k - 1..];
      DueCountDrop(q[1..], now, k - 1);
    }
  }

  /** In a sorted queue the due tasks are exactly its due prefix: nothing
      past it is due. */
  lemma SortedDueIsPrefix(q: seq<Task>, now: int)
    requires Sorted(q)
    ensures forall i :: 0 <= i < |q| ==> (IsDue(q[i], now) <==> i < DueCount(q, now))
  {
    DueCountIsLongestDuePrefix(q, now);
    var d := DueCount(q, now);
    forall i | d < i < |q|
      ensures !IsDue(q[i], now)
    {
      assert Before(q[d], q[i]);
    }
  }

  /** The head of a sorted queue is its least element under compareTo. */
  lemma HeadIsLeast(q: seq<Task>, now: int)
    requires Sorted(q) && |q| > 0
    ensures forall i :: 0 < i < |q| ==> CompareTo(q[0], TaskRef(q[i]), now) == -1
  {
    forall i | 0 < i < |q|
      ensures CompareTo(q[0], TaskRef(q[i]), now) == -1
    {
      assert Before(q[0], q[i]);
      if q[0].time != q[i].time {
        CompareFollowsFireTime(q[0], q[i], now);
      }
    }
  }

  /** drainTo(buffer, max): remove heads while fewer than `max` have been
      taken and the head is due, that is, the longest due prefix but at most
      `max` tasks. Returns the removed tasks, in removal order, and the
      queue left behind. */
  function DrainTo(q: seq<Task>, now: int, max: nat): (r: (seq<Task>, seq<Task>))
    ensures r.0 + r.1 == q
    ensures |r.0| == Min(DueCount(q, now), max)
  {
    var m := Min(DueCount(q, now), max);
    assert q[..m] + q[m..] == q;
    (q[..m], q[m..])
  }

  /** What drainTo removes is due, and it stops early only at a task that is
      not due. */
  lemma DrainToTakesDueTasks(q: seq<Task>, now: int, max: nat)
    ensures var (batch, rest) := DrainTo(q, now, max);
            && (forall i :: 0 <= i < |batch| ==> IsDue(batch[i], now))
            && (|batch| < max && rest != [] ==> !IsDue(rest[0], now))
  {
    DueCountIsLongestDuePrefix(q, now);
    var m := Min(DueCount(q, now), max);
    assert forall i :: 0 <= i < m ==> q[..m][i] == q[i];
    assert m < |q| ==> q[m..][0] == q[m];
  }

  /** take, with blocking replaced by the clock reading: the head is removed
      and returned when it is due and the caller was not interrupted;
      otherwise nothing is returned and the queue is left as it was. */
  function Take(q: seq<Task>, now: int, interrupted: bool): (r: (Option<Task>, seq<Task>))
    ensures r.0.Some? <==> !interrupted && DueCount(q, now) > 0
    ensures r.0.Some? ==> r.0.value == q[0] && r.1 == q[1..]
    ensures r.0.None? ==> r.1 == q
  {
    if interrupted || q == [] || !IsDue(q[0], now) then (None, q)
    else (Some(q[0]), q[1..])
  }

  /** The example of four tasks at times 1, 1, 5, 1 created in that order:
      they leave the queue in the order first, second, fourth, third. */
  lemma PollOrderExample(t1: Task, t2: Task, t3: Task, t4: Task)
    requires t1.time == 1 && t2.time == 1 && t3.time == 5 && t4.time == 1
    requires t1.seqNumber == 0 && t2.seqNumber == 1 && t3.seqNumber == 2 && t4.seqNumber == 3
    ensures InsertAll([], [t1, t2, t3, t4]) == [t1, t2, t4, t3]
  {
    var r := [t1, t2, t4, t3];
    var ts := [t1, t2, t3, t4];
    assert InsertAll([t1, t2, t3], ts[3..]) == r by {
      assert [t1, t2, t3][1..][1..] == [t3];
      assert Insert([t3], t4) == [t4, t3];
      assert Insert([t1, t2, t3], t4) == r;
      assert ts[3..][1..] == [];
    }
    assert InsertAll([t1, t2], ts[2..]) == r by {
      InsertAfterAll([t1, t2], t3);
      assert [t1, t2] + [t3] == [t1, t2, t3];
      assert ts[2..][1..] == ts[3..];
    }
    assert InsertAll([t1], ts[1..]) == r by {
      InsertAfterAll([t1], t2);
      assert [t1] + [t2] == [t1, t2];
      assert ts[1..][1..] == ts[2..];
    }
    assert InsertAll([], ts) == r by {
      assert Insert([], t1) == [t1];
    }
  }
}
