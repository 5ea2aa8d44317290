/** A scheduled task: a fire time in integer ticks, the sequence number the
    shared sequencer gave it at construction, and the id of its callable.
    The natural order of tasks is lexicographic on (fire time, sequence). */
module Tasks {
  import opened Wrappers

  /** Identity of a user callable; its body and result are not modelled. */
  type CallableId = nat

  datatype Task = Task(time: int, seqNumber: nat, callable: CallableId)

  /** The strict order a delay queue releases tasks in: earlier fire time
      first, and on equal fire times the lower sequence number first. */
  predicate Before(a: Task, b: Task) {
    a.time < b.time || (a.time == b.time && a.seqNumber < b.seqNumber)
  }

  /** The delay of a task at clock reading `now`: the signed number of
      ticks until its fire time (negative once it is overdue). */
  function Delay(t: Task, now: int): (d: int)
    ensures now + d == t.time
    ensures d <= 0 <==> t.time <= now
  {
    t.time - now
  }

  /** A task is due when its delay is not positive, the test a delay queue
      applies before releasing its head. */
  predicate IsDue(t: Task, now: int) {
    Delay(t, now) <= 0
  }

  /** Long.compare: -1, 0 or 1 as x is below, equal to or above y. */
  function LongCompare(x: int, y: int): (r: int)
    ensures r == -1 || r == 0 || r == 1
    ensures r < 0 <==> x < y
    ensures r == 0 <==> x == y
  {
    if x < y then -1 else if x == y then 0 else 1
  }

  /** The argument of compareTo: a null reference, another scheduled task,
      or some other Delayed object, seen only through its current delay. */
  datatype Delayed = NullRef | TaskRef(task: Task) | OtherDelayed(delay: int)

  /** ScheduledTask.compareTo. Reference identity `o == this` is value
      equality here: distinct task objects never share a sequence number,
      so two equal task values are the same object. The fire-time
      comparison keeps only its sign. */
  function CompareTo(self: Task, o: Delayed, now: int): (r: int)
    ensures -1 <= r <= 1
    ensures o.NullRef? ==> r == 1
    ensures o == TaskRef(self) ==> r == 0
    ensures o.TaskRef? && o.task.seqNumber != self.seqNumber ==>
              r != 0 && (r < 0 <==> Before(self, o.task)) && (r > 0 <==> Before(o.task, self))
    ensures o.OtherDelayed? ==> r == LongCompare(Delay(self, now), o.delay)
  {
    match o
    case NullRef => 1
    case TaskRef(t) =>
      if t == self then 0
      else
        var diff := LongCompare(self.time, t.time);
        if diff == 0 then (if self.seqNumber > t.seqNumber then 1 else -1) else diff
    case OtherDelayed(d) => LongCompare(Delay(self, now), d)
  }

  /** Tasks with different fire times compare with the sign of the
      fire-time comparison, whatever their sequence numbers. */
  lemma CompareFollowsFireTime(a: Task, b: Task, now: int)
    requires a.time != b.time
    ensures CompareTo(a, TaskRef(b), now) == LongCompare(a.time, b.time)
  {
  }

  /** On equal fire times the later-created task (larger sequence number)
      compares greater and the earlier one compares less. */
  lemma LaterTaskSortsAfter(a: Task, b: Task, now: int)
    requires a.time == b.time && a.seqNumber < b.seqNumber
    ensures CompareTo(b, TaskRef(a), now) == 1
    ensures CompareTo(a, TaskRef(b), now) == -1
  {
  }

  /** Among tasks with distinct sequence numbers compareTo is antisymmetric
      and never 0, and it agrees with the lexicographic order Before. */
  lemma CompareIsAntisymmetric(a: Task, b: Task, now: int)
    requires a.seqNumber != b.seqNumber
    ensures CompareTo(a, TaskRef(b), now) == -CompareTo(b, TaskRef(a), now)
    ensures CompareTo(a, TaskRef(b), now) != 0
  {
  }

  /** Before is a strict total order on tasks whose sequence numbers are
      distinct: irreflexive, transitive and connected. */
  lemma BeforeIsStrictTotalOrder(a: Task, b: Task, c: Task)
    ensures !Before(a, a)
    ensures Before(a, b) && Before(b, c) ==> Before(a, c)
    ensures a.seqNumber != b.seqNumber ==> Before(a, b) || Before(b, a)
    ensures Before(a, b) ==> !Before(b, a)
  {
  }

  /** The shared sequence counter (a static AtomicLong starting at 0).
      Constructing a task takes its current value and increments it. */
  class Sequencer {
    var next: nat

    constructor ()
      ensures next == 0
    {
      next := 0;
    }

    /** The ScheduledTask constructor: the new task carries the counter's
        value before the increment, so every task gets a number strictly
        greater than every task constructed before it. */
    method NewTask(time: int, callable: CallableId) returns (t: Task)
      modifies this
      ensures t == Task(time, old(next), callable)
      ensures next == old(next) + 1
    {
      t := Task(time, next, callable);
      next := next + 1;
    }
  }
}
