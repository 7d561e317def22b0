/**
 * The service class: its state field is written only by SetState (the cause
 * also once directly by StartWith, as the source does), and each lifecycle call is proved to leave the service in the
 * state the transition tables of module Lifecycle prescribe and to keep the
 * lifecycle invariant Consistent.
 */
module ServiceCore {
  import opened ServiceApi
  import opened Lifecycle

  /**
   * A service. Its state is written only by SetState, which writes the cause
   * with it; StartWith also assigns the cause once more after the move to
   * RUNNING. The ghost log stands for the notifications published on the
   * message bus.
   */
  class AbstractService {
    var state: State
    var cause: Option<Cause>
    ghost var log: seq<Notification>

    ghost function View(): Snapshot
      reads this
    {
      Snapshot(state, cause, log)
    }

    /** The class invariant: the lifecycle invariant of what an observer sees. */
    ghost predicate Valid()
      reads this
    {
      Consistent(View())
    }

    constructor ()
      ensures View() == Fresh()
      ensures Valid()
    {
      FreshConsistent();
      state := State.Initial;
      cause := None;
      log := [];
    }

    method GetState() returns (s: State)
      ensures s == state
    {
      s := state;
    }

    method GetCause() returns (c: Option<Cause>)
      ensures c == cause
    {
      c := cause;
    }

    method IsStarted() returns (started: bool)
      ensures started <==> state == State.Running
    {
      started := state == State.Running;
    }

    method IsStopped() returns (stopped: bool)
      ensures stopped <==> state == State.Stopped
    {
      stopped := state == State.Stopped;
    }

    /**
     * The one place state and cause change: both are written, and one
     * notification (previous state, new state, cause) is published, only
     * when the new state differs from the current one.
     */
    method SetState(s: State, c: Cause)
      modifies this
      ensures old(state) != s ==> state == s && cause == Some(c) && log == old(log) + [Notification(old(state), s, c)]
      ensures old(state) == s ==> state == old(state) && cause == old(cause) && log == old(log)
    {
      if s != state {
        var previous := state;
        state := s;
        cause := Some(c);
        log := log + [Notification(previous, s, c)];
      }
    }

    /**
     * stop(c). The executor is asked to stop or fail the dependants, but its
     * answer is not looked at: dependenciesStopped does not occur in the
     * postcondition.
     */
    method StopWith(c: Cause, dependenciesStopped: bool, stopHookSucceeds: bool) returns (status: Status)
      modifies this
      ensures View() == AfterStop(old(View()), c, stopHookSucceeds)
      ensures status == StatusOf(View())
      ensures old(Valid()) ==> Valid()
    {
      if Valid() {
        StopKeepsConsistent(View(), c, stopHookSucceeds);
      }
      if state == State.Stopped || state == State.Stopping || state == State.Failed || state == State.Resetting {
        return Status(state, cause);
      }
      if state == State.Initial {
        return Status(state, cause);
      }
      SetState(State.Stopping, c);
      // the executor stops or fails the dependants here; its answer is discarded
      if stopHookSucceeds {
        SetState(StopStateFromCause(c), c);
      } else if c == Cause.Failed {
        SetState(StopStateFromCause(Cause.Failed), Cause.Failed);
      } else {
        SetState(StopStateFromCause(Cause.FailedToStop), Cause.FailedToStop);
      }
      status := Status(state, cause);
    }

    /** stop(): stop with cause STOPPED. */
    method Stop(dependenciesStopped: bool, stopHookSucceeds: bool) returns (status: Status)
      modifies this
      ensures View() == AfterStop(old(View()), Cause.Stopped, stopHookSucceeds)
      ensures status == StatusOf(View())
      ensures old(Valid()) ==> Valid()
    {
      status := StopWith(Cause.Stopped, dependenciesStopped, stopHookSucceeds);
    }

    /** fail(): stop with cause FAILED. */
    method Fail(dependenciesStopped: bool, stopHookSucceeds: bool) returns (status: Status)
      modifies this
      ensures View() == AfterStop(old(View()), Cause.Failed, stopHookSucceeds)
      ensures status == StatusOf(View())
      ensures old(Valid()) ==> Valid()
    {
      status := StopWith(Cause.Failed, dependenciesStopped, stopHookSucceeds);
    }

    /** dependencyFail(): stop with cause DEPENDENCY_FAILED. */
    method DependencyFail(dependenciesStopped: bool, stopHookSucceeds: bool) returns (status: Status)
      modifies this
      ensures View() == AfterStop(old(View()), Cause.DependencyFailed, stopHookSucceeds)
      ensures status == StatusOf(View())
      ensures old(Valid()) ==> Valid()
    {
      status := StopWith(Cause.DependencyFailed, dependenciesStopped, stopHookSucceeds);
    }

    /** dependencyStop(): stop with cause DEPENDENCY_STOPPED. */
    method DependencyStop(dependenciesStopped: bool, stopHookSucceeds: bool) returns (status: Status)
      modifies this
      ensures View() == AfterStop(old(View()), Cause.DependencyStopped, stopHookSucceeds)
      ensures status == StatusOf(View())
      ensures old(Valid()) ==> Valid()
    {
      status := StopWith(Cause.DependencyStopped, dependenciesStopped, stopHookSucceeds);
    }

    /** reset(). A throwing doReset is reported in the status, never re-raised. */
    method Reset(resetHookSucceeds: bool) returns (r: Result<Status>)
      modifies this
      ensures View() == Settle(old(View()), AfterReset(old(View()), resetHookSucceeds))
      ensures r == Reply(AfterReset(old(View()), resetHookSucceeds))
      ensures old(Valid()) ==> Valid()
    {
      if Valid() {
        ResetKeepsConsistent(View(), resetHookSucceeds);
      }
      if state == State.Initial || state == State.Resetting {
        return Ok(Status(state, cause));
      }
      if state != State.Stopped && state != State.Failed {
        return StateConflict(ResetWhileActive);
      }
      SetState(State.Resetting, Cause.Reset);
      if resetHookSucceeds {
        SetState(State.Initial, Cause.Reset);
        return Ok(Status(state, cause));
      } else {
        SetState(State.Failed, Cause.FailedToReset);
        return Ok(Status(state, cause));
      }
    }

    /**
     * start(c). When the executor reports that the dependencies could not be
     * started the service reverts to the state it began in, and doStart is
     * not run.
     */
    method StartWith(c: Cause, dependenciesStarted: bool, startHookSucceeds: bool) returns (r: Result<Status>)
      modifies this
      ensures View() == Settle(old(View()), AfterStart(old(View()), c, dependenciesStarted, startHookSucceeds))
      ensures r == Reply(AfterStart(old(View()), c, dependenciesStarted, startHookSucceeds))
      ensures old(Valid()) ==> Valid()
    {
      if Valid() {
        StartKeepsConsistent(View(), c, dependenciesStarted, startHookSucceeds);
      }
      if state == State.Running || state == State.Starting {
        return Ok(Status(state, cause));
      }
      if state == State.Stopping {
        return StateConflict(StartWhileStopping);
      }
      if state == State.Failed {
        return StateConflict(StartWhileFailed);
      }
      var beginningState := state;
      SetState(State.Starting, c);
      if dependenciesStarted {
        if startHookSucceeds {
          SetState(State.Running, c);
          cause := Some(c);
        } else {
          SetState(State.Failed, Cause.FailedToStart);
        }
      } else {
        SetState(beginningState, Cause.DependencyFailed);
      }
      r := Ok(Status(state, cause));
    }

    /** start(): start with cause STARTED. */
    method Start(dependenciesStarted: bool, startHookSucceeds: bool) returns (r: Result<Status>)
      modifies this
      ensures View() == Settle(old(View()), AfterStart(old(View()), Cause.Started, dependenciesStarted, startHookSucceeds))
      ensures r == Reply(AfterStart(old(View()), Cause.Started, dependenciesStarted, startHookSucceeds))
      ensures old(Valid()) ==> Valid()
    {
      r := StartWith(Cause.Started, dependenciesStarted, startHookSucceeds);
    }
  }
}
