/** The scheduler's lifecycle: LATENT, then STARTED, then CLOSED, each move
    made by one compare-and-set, together with the guard `schedule` applies
    and the fixed messages of every failure. */
module Lifecycle {
  import opened Wrappers

  datatype State = Latent | Started | Closed

  /** The exceptions the core throws, by class, with their messages. */
  datatype Error =
    | IllegalState(message: string)
    | NullPointer(message: string)
    | IllegalArgument(message: string)

  const START_FAILED: string := "Scheduler already started or stoped!"
  const STOP_FAILED: string := "Scheduler already stoped or has not been started"
  const NOT_STARTED: string := "Scheduler not started!"
  const NULL_TIME: string := "scheduledTime can't be null"
  const NULL_CALLABLE: string := "callable can't be null"

  /** AtomicReference.compareAndSet run without interference: the update
      happens exactly when the current value is the expected one. */
  function CompareAndSet(current: State, expected: State, update: State): (r: (bool, State))
    ensures r.0 <==> current == expected
    ensures r.1 == if r.0 then update else current
  {
    if current == expected then (true, update) else (false, current)
  }

  datatype Command = StartCall | StopCall

  /** The outcome of start() or stop() in state s and the state after it. */
  function Apply(s: State, c: Command): (r: (Outcome<Error>, State))
    ensures r.0.Pass? <==> (c == StartCall && s == Latent) || (c == StopCall && s == Started)
    ensures r.0.Pass? && c == StartCall ==> r.1 == Started
    ensures r.0.Pass? && c == StopCall ==> r.1 == Closed
    ensures r.0.Fail? ==> r.1 == s
    ensures r.0.Fail? ==> r.0.error == IllegalState(if c == StartCall then START_FAILED else STOP_FAILED)
  {
    match c
    case StartCall =>
      var (swapped, s') := CompareAndSet(s, Latent, Started);
      (if swapped then Pass else Fail(IllegalState(START_FAILED)), s')
    case StopCall =>
      var (swapped, s') := CompareAndSet(s, Started, Closed);
      (if swapped then Pass else Fail(IllegalState(STOP_FAILED)), s')
  }

  /** The only moves the lifecycle allows: none, LATENT to STARTED, or
      STARTED to CLOSED. */
  predicate OneWayStep(s: State, s': State) {
    s' == s || (s == Latent && s' == Started) || (s == Started && s' == Closed)
  }

  lemma ApplyIsOneWayStep(s: State, c: Command)
    ensures OneWayStep(s, Apply(s, c).1)
  {
  }

  /** How far along the lifecycle a state is. */
  function Rank(s: State): nat {
    match s
    case Latent => 0
    case Started => 1
    case Closed => 2
  }

  /** The state after a sequence of start() and stop() calls. */
  function Run(s: State, cmds: seq<Command>): State
    decreases |cmds|
  {
    if cmds == [] then s else Run(Apply(s, cmds[0]).1, cmds[1..])
  }

  /** No sequence of calls ever moves the lifecycle backwards. */
  lemma {:induction false} RunNeverGoesBack(s: State, cmds: seq<Command>)
    ensures Rank(s) <= Rank(Run(s, cmds))
    decreases |cmds|
  {
    if cmds != [] {
      RunNeverGoesBack(Apply(s, cmds[0]).1, cmds[1..]);
    }
  }

  /** Once closed, a scheduler stays closed whatever is called. */
  lemma {:induction false} ClosedIsFinal(cmds: seq<Command>)
    ensures Run(Closed, cmds) == Closed
    decreases |cmds|
  {
    if cmds != [] {
      ClosedIsFinal(cmds[1..]);
    }
  }

  /** How many calls of kind c succeed in the sequence, starting from s. */
  function Successes(s: State, cmds: seq<Command>, c: Command): nat
    decreases |cmds|
  {
    if cmds == [] then 0
    else
      var (outcome, s') := Apply(s, cmds[0]);
      (if cmds[0] == c && outcome.Pass? then 1 else 0) + Successes(s', cmds[1..], c)
  }

  /** Each transition wins at most once: whatever a sequence of calls does,
      from LATENT at most one start() and at most one stop() succeed, and a
      stop() succeeds only after a start() has. */
  lemma {:induction false} EachTransitionAtMostOnce(s: State, cmds: seq<Command>)
    ensures Successes(s, cmds, StartCall) <= (if s == Latent then 1 else 0)
    ensures Successes(s, cmds, StopCall) <= (if s == Closed then 0 else 1)
    ensures Successes(s, cmds, StopCall) <= Successes(s, cmds, StartCall) + (if s == Started then 1 else 0)
    decreases |cmds|
  {
    if cmds != [] {
      EachTransitionAtMostOnce(Apply(s, cmds[0]).1, cmds[1..]);
    }
  }

  /** The guard of schedule(time, callable): "not started" is checked
      before the two null checks, and the fire time before the callable. */
  function ScheduleCheck<T, C>(s: State, time: Option<T>, callable: Option<C>): (r: Outcome<Error>)
    ensures r.Pass? <==> s == Started && time.Some? && callable.Some?
    ensures s != Started ==> r == Fail(IllegalState(NOT_STARTED))
    ensures s == Started && time.None? ==> r == Fail(NullPointer(NULL_TIME))
    ensures s == Started && time.Some? && callable.None? ==> r == Fail(NullPointer(NULL_CALLABLE))
  {
    if s != Started then Fail(IllegalState(NOT_STARTED))
    else if time.None? then Fail(NullPointer(NULL_TIME))
    else if callable.None? then Fail(NullPointer(NULL_CALLABLE))
    else Pass
  }

  /** After stop() has succeeded, every later schedule() is rejected with
      "not started", whatever start() and stop() calls follow. */
  lemma ScheduleAfterStopFails<T, C>(s: State, cmds: seq<Command>, time: Option<T>, callable: Option<C>)
    requires Apply(s, StopCall).0.Pass?
    ensures ScheduleCheck(Run(Apply(s, StopCall).1, cmds), time, callable) == Fail(IllegalState(NOT_STARTED))
  {
    ClosedIsFinal(cmds);
  }
}
