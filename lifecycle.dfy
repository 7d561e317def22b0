/**
 * The lifecycle state machine of a service, on values: the transition table
 * of each lifecycle call as a function from what an observer sees before the
 * call to what it sees after it, and the invariant every call keeps.
 *
 * The dependency executor and the business hooks doStart, doStop and doReset
 * are not modelled as code: each call takes the executor's answer and whether
 * the hook returned normally (true) or threw (false) as inputs.
 */
module Lifecycle {
  import opened ServiceApi

  /** The state a stop ends in when doStop returns normally: FAILED for the two failure causes, STOPPED otherwise. */
  function StopStateFromCause(c: Cause): (s: State)
    ensures s == State.Failed || s == State.Stopped
    ensures s == State.Failed <==> (c == Cause.Failed || c == Cause.FailedToStop)
  {
    if c == Cause.Failed || c == Cause.FailedToStop then State.Failed else State.Stopped
  }

  /** What an observer can see of a service: its state, its cause and every notification published so far. */
  datatype Snapshot = Snapshot(state: State, cause: Option<Cause>, log: seq<Notification>)

  /** A new service: INITIAL, no cause, nothing published. */
  function Fresh(): Snapshot {
    Snapshot(State.Initial, None, [])
  }

  function StatusOf(m: Snapshot): Status {
    Status(m.state, m.cause)
  }

  /** The states from which stop has nothing to do. */
  predicate StopIgnored(s: State) {
    s == State.Stopped || s == State.Stopping || s == State.Failed || s == State.Resetting || s == State.Initial
  }

  /**
   * The transition table of stop(c): a no-op unless STARTING or RUNNING;
   * otherwise the service is announced as STOPPING and then ends in the state
   * and cause decided by c and by whether doStop threw.
   */
  function AfterStop(m: Snapshot, c: Cause, stopHookSucceeds: bool): Snapshot {
    if StopIgnored(m.state) then m
    else
      var finalState := if stopHookSucceeds then StopStateFromCause(c) else State.Failed;
      var finalCause := if stopHookSucceeds || c == Cause.Failed then c else Cause.FailedToStop;
      Snapshot(finalState, Some(finalCause),
               m.log + [Notification(m.state, State.Stopping, c), Notification(State.Stopping, finalState, finalCause)])
  }

  const StartWhileStopping := "Cannot start() when state is STOPPING"
  const StartWhileFailed := "Cannot start() when state is FAILED.  Call reset() first"
  const ResetWhileActive := "Must be in a STOPPED state before reset()"

  /**
   * The transition table of start(c): a no-op when RUNNING or STARTING, a
   * state conflict when STOPPING or FAILED; otherwise the service is announced
   * as STARTING and then either reverts to where it began (the executor could
   * not start its dependencies), or ends RUNNING or FAILED by the hook's outcome.
   */
  function AfterStart(m: Snapshot, c: Cause, dependenciesStarted: bool, startHookSucceeds: bool): Result<Snapshot> {
    match m.state
    case Running => Ok(m)
    case Starting => Ok(m)
    case Stopping => StateConflict(StartWhileStopping)
    case Failed => StateConflict(StartWhileFailed)
    case _ =>
      var starting := m.log + [Notification(m.state, State.Starting, c)];
      if !dependenciesStarted then
        Ok(Snapshot(m.state, Some(Cause.DependencyFailed),
                    starting + [Notification(State.Starting, m.state, Cause.DependencyFailed)]))
      else if startHookSucceeds then
        Ok(Snapshot(State.Running, Some(c), starting + [Notification(State.Starting, State.Running, c)]))
      else
        Ok(Snapshot(State.Failed, Some(Cause.FailedToStart),
                    starting + [Notification(State.Starting, State.Failed, Cause.FailedToStart)]))
  }

  /**
   * The transition table of reset(): a no-op when INITIAL or RESETTING, a state
   * conflict unless STOPPED or FAILED; otherwise the service is announced as
   * RESETTING and ends INITIAL, or FAILED when doReset threw.
   */
  function AfterReset(m: Snapshot, resetHookSucceeds: bool): Result<Snapshot> {
    match m.state
    case Initial => Ok(m)
    case Resetting => Ok(m)
    case Stopped =>
      Ok(ResetFrom(m, resetHookSucceeds))
    case Failed =>
      Ok(ResetFrom(m, resetHookSucceeds))
    case _ => StateConflict(ResetWhileActive)
  }

  function ResetFrom(m: Snapshot, resetHookSucceeds: bool): Snapshot {
    var resetting := m.log + [Notification(m.state, State.Resetting, Cause.Reset)];
    if resetHookSucceeds then
      Snapshot(State.Initial, Some(Cause.Reset), resetting + [Notification(State.Resetting, State.Initial, Cause.Reset)])
    else
      Snapshot(State.Failed, Some(Cause.FailedToReset),
               resetting + [Notification(State.Resetting, State.Failed, Cause.FailedToReset)])
  }

  /** What a call hands back: the status after it, or the state-conflict error unchanged. */
  function Reply(r: Result<Snapshot>): Result<Status> {
    match r
    case Ok(m) => Ok(StatusOf(m))
    case StateConflict(msg) => StateConflict(msg)
  }

  /** The snapshot after a call: unchanged when the call raised a state conflict. */
  function Settle(before: Snapshot, r: Result<Snapshot>): Snapshot {
    match r
    case Ok(m) => m
    case StateConflict(_) => before
  }

  /** The states a service can be in between lifecycle calls. */
  predicate AtRest(s: State) {
    s == State.Initial || s == State.Running || s == State.Stopped || s == State.Failed
  }

  /** The causes each state at rest can be paired with. */
  predicate CauseFits(s: State, c: Option<Cause>) {
    match s
    case Initial => c == None || c == Some(Cause.Reset) || c == Some(Cause.DependencyFailed)
    case Running => c.Some?
    case Stopped => c.Some? && c.value != Cause.Failed && c.value != Cause.FailedToStop
    case Failed =>
      c == Some(Cause.Failed) || c == Some(Cause.FailedToStop) || c == Some(Cause.FailedToStart) || c == Some(Cause.FailedToReset)
    case _ => false
  }

  /**
   * The published notifications form one chain of realized moves: it begins at
   * INITIAL, every notification changes the state, each one starts where the
   * previous one ended, and the last one names the current state and cause.
   * Nothing published means the service has never moved.
   */
  predicate LogChained(m: Snapshot) {
    var log := m.log;
    (log == [] ==> m.state == State.Initial && m.cause == None) &&
    (log != [] ==>
       log[0].previous == State.Initial &&
       log[|log| - 1].current == m.state &&
       m.cause == Some(log[|log| - 1].cause)) &&
    (forall i :: 0 <= i < |log| ==> log[i].previous != log[i].current) &&
    (forall i :: 0 < i < |log| ==> log[i - 1].current == log[i].previous)
  }

  /** The lifecycle invariant: at rest, a cause that fits the state, and a chained log. */
  predicate Consistent(m: Snapshot) {
    AtRest(m.state) && CauseFits(m.state, m.cause) && LogChained(m)
  }

  lemma FreshConsistent()
    ensures Consistent(Fresh())
  {
  }

  /** Appending two chained moves a -> b -> c to a chained log ending in a keeps it chained. */
  lemma AppendMoves(m: Snapshot, first: Notification, second: Notification, next: Snapshot)
    requires LogChained(m)
    requires first.previous == m.state && first.previous != first.current
    requires second.previous == first.current && second.previous != second.current
    requires next.log == m.log + [first, second]
    requires next.state == second.current && next.cause == Some(second.cause)
    ensures LogChained(next)
  {
    var log := next.log;
    var n := |m.log|;
    assert log[n] == first && log[n + 1] == second;
    assert forall i :: 0 <= i < n ==> log[i] == m.log[i];
    assert n == 0 ==> m.state == State.Initial;
  }

  lemma StopKeepsConsistent(m: Snapshot, c: Cause, stopHookSucceeds: bool)
    requires Consistent(m)
    ensures Consistent(AfterStop(m, c, stopHookSucceeds))
  {
    var next := AfterStop(m, c, stopHookSucceeds);
    if !StopIgnored(m.state) {
      var n := |m.log|;
      AppendMoves(m, next.log[n], next.log[n + 1], next);
    }
  }

  lemma StartKeepsConsistent(m: Snapshot, c: Cause, dependenciesStarted: bool, startHookSucceeds: bool)
    requires Consistent(m)
    ensures Consistent(Settle(m, AfterStart(m, c, dependenciesStarted, startHookSucceeds)))
  {
    var r := AfterStart(m, c, dependenciesStarted, startHookSucceeds);
    if r.Ok? && r.value != m {
      var n := |m.log|;
      AppendMoves(m, r.value.log[n], r.value.log[n + 1], r.value);
    }
  }

  lemma ResetKeepsConsistent(m: Snapshot, resetHookSucceeds: bool)
    requires Consistent(m)
    ensures Consistent(Settle(m, AfterReset(m, resetHookSucceeds)))
  {
    var r := AfterReset(m, resetHookSucceeds);
    if r.Ok? && r.value != m {
      var n := |m.log|;
      AppendMoves(m, r.value.log[n], r.value.log[n + 1], r.value);
    }
  }
}
