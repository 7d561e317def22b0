/**
 * Properties of the lifecycle transition tables: the outcome of each call in
 * each case, idempotence, conflicts, the scenarios
 * a service's users rely on, and the invariants that hold after any sequence
 * of calls on a new service.
 */
module LifecycleProperties {
  import opened ServiceApi
  import opened Lifecycle

  // ---------------------------------------------------------------------------
  // stop

  /** stop(c) from STOPPED, STOPPING, FAILED, RESETTING or INITIAL changes nothing and publishes nothing. */
  lemma StopIgnoredIsNoOp(m: Snapshot, c: Cause, stopHookSucceeds: bool)
    requires m.state in {State.Stopped, State.Stopping, State.Failed, State.Resetting, State.Initial}
    ensures AfterStop(m, c, stopHookSucceeds) == m
  {
  }

  /**
   * stop(c) from STARTING or RUNNING publishes the move to STOPPING, then the
   * move to the final state: with doStop returning normally FAILED for the
   * causes FAILED and FAILED_TO_STOP and STOPPED otherwise, cause c; with doStop
   * throwing FAILED, cause FAILED when c is FAILED and FAILED_TO_STOP otherwise.
   */
  lemma StopFromActive(m: Snapshot, c: Cause, stopHookSucceeds: bool)
    requires m.state == State.Starting || m.state == State.Running
    ensures var r := AfterStop(m, c, stopHookSucceeds);
      && r.log == m.log + [Notification(m.state, State.Stopping, c), Notification(State.Stopping, r.state, r.cause.value)]
      && (stopHookSucceeds ==>
            r.cause == Some(c) &&
            r.state == (if c == Cause.Failed || c == Cause.FailedToStop then State.Failed else State.Stopped))
      && (!stopHookSucceeds ==>
            r.state == State.Failed &&
            r.cause == Some(if c == Cause.Failed then Cause.Failed else Cause.FailedToStop))
  {
  }

  /** A second stop, with any cause and any hook outcome, changes nothing. */
  lemma StopIdempotent(m: Snapshot, c: Cause, ok: bool, c2: Cause, ok2: bool)
    ensures AfterStop(AfterStop(m, c, ok), c2, ok2) == AfterStop(m, c, ok)
  {
  }

  // ---------------------------------------------------------------------------
  // start

  /** start(c) from RUNNING or STARTING changes nothing; from STOPPING or FAILED it is a state conflict. */
  lemma StartGuards(m: Snapshot, c: Cause, dependenciesStarted: bool, startHookSucceeds: bool)
    ensures var r := AfterStart(m, c, dependenciesStarted, startHookSucceeds);
      && (m.state == State.Running || m.state == State.Starting <==> r == Ok(m))
      && (m.state == State.Stopping <==> r == StateConflict(StartWhileStopping))
      && (m.state == State.Failed <==> r == StateConflict(StartWhileFailed))
  {
    var r := AfterStart(m, c, dependenciesStarted, startHookSucceeds);
    if m.state in {State.Initial, State.Stopped, State.Resetting} {
      // the call publishes two notifications, so it cannot hand back m itself
      assert r.Ok? && |r.value.log| == |m.log| + 2;
    }
  }

  /**
   * start(c) from INITIAL, STOPPED or RESETTING publishes the move to STARTING;
   * if the dependencies could not be started it moves back to the state it
   * began in with cause DEPENDENCY_FAILED, and otherwise it ends RUNNING with
   * cause c or, when doStart throws, FAILED with cause FAILED_TO_START.
   */
  lemma StartFromIdle(m: Snapshot, c: Cause, dependenciesStarted: bool, startHookSucceeds: bool)
    requires m.state in {State.Initial, State.Stopped, State.Resetting}
    ensures var r := AfterStart(m, c, dependenciesStarted, startHookSucceeds);
      && r.Ok?
      && r.value.log == m.log + [Notification(m.state, State.Starting, c),
                                 Notification(State.Starting, r.value.state, r.value.cause.value)]
      && (!dependenciesStarted ==> r.value.state == m.state && r.value.cause == Some(Cause.DependencyFailed))
      && (dependenciesStarted && startHookSucceeds ==> r.value.state == State.Running && r.value.cause == Some(c))
      && (dependenciesStarted && !startHookSucceeds ==>
            r.value.state == State.Failed && r.value.cause == Some(Cause.FailedToStart))
  {
  }

  /** Once start has brought the service to RUNNING, starting again changes nothing. */
  lemma StartIdempotentOnSuccess(m: Snapshot, c: Cause, c2: Cause, deps2: bool, ok2: bool)
    requires AfterStart(m, c, true, true).Ok?
    ensures var next := AfterStart(m, c, true, true).value;
      AfterStart(next, c2, deps2, ok2) == Ok(next)
  {
  }

  // ---------------------------------------------------------------------------
  // reset

  /**
   * reset() from INITIAL or RESETTING changes nothing; from STARTING, RUNNING
   * or STOPPING it is a state conflict; from STOPPED or FAILED it publishes the
   * move to RESETTING with cause RESET and ends INITIAL with cause RESET, or
   * FAILED with cause FAILED_TO_RESET when doReset throws.
   */
  lemma ResetCases(m: Snapshot, resetHookSucceeds: bool)
    ensures var r := AfterReset(m, resetHookSucceeds);
      && (m.state == State.Initial || m.state == State.Resetting <==> r == Ok(m))
      && (m.state in {State.Starting, State.Running, State.Stopping} <==> r == StateConflict(ResetWhileActive))
      && (m.state == State.Stopped || m.state == State.Failed ==>
            && r.Ok?
            && r.value.log == m.log + [Notification(m.state, State.Resetting, Cause.Reset),
                                       Notification(State.Resetting, r.value.state, r.value.cause.value)]
            && (resetHookSucceeds ==> r.value.state == State.Initial && r.value.cause == Some(Cause.Reset))
            && (!resetHookSucceeds ==> r.value.state == State.Failed && r.value.cause == Some(Cause.FailedToReset)))
  {
    var r := AfterReset(m, resetHookSucceeds);
    if m.state == State.Stopped || m.state == State.Failed {
      // the call publishes two notifications, so it cannot hand back m itself
      assert r.Ok? && |r.value.log| == |m.log| + 2;
    }
  }

  /**
   * A state conflict, from start or from reset, leaves the snapshot as it was.
   * On values this holds by the definition of Settle; the promise about the
   * service object is the Settle postcondition of StartWith and Reset.
   */
  lemma ConflictChangesNothing(m: Snapshot, c: Cause, deps: bool, ok: bool)
    ensures AfterStart(m, c, deps, ok).StateConflict? ==> Settle(m, AfterStart(m, c, deps, ok)) == m
    ensures AfterReset(m, ok).StateConflict? ==> Settle(m, AfterReset(m, ok)) == m
  {
  }

  /**
   * A FAILED service refuses to start, whatever the executor and doStart would
   * do; a reset whose doReset returns normally brings it to INITIAL, from where
   * start succeeds.
   */
  lemma FailedMustBeReset(m: Snapshot, c: Cause)
    requires m.state == State.Failed
    ensures forall deps: bool, ok: bool :: AfterStart(m, c, deps, ok).StateConflict?
    ensures var reset := AfterReset(m, true);
      && reset.Ok? && reset.value.state == State.Initial
      && AfterStart(reset.value, c, true, true).Ok?
      && AfterStart(reset.value, c, true, true).value.state == State.Running
  {
  }

  // ---------------------------------------------------------------------------
  // Scenarios on a service

  /** A new service ignores stop: still INITIAL, no notification. */
  lemma NewServiceIgnoresStop(ok: bool)
    ensures AfterStop(Fresh(), Cause.Stopped, ok) == Fresh()
  {
  }

  /** A new service whose dependencies and doStart succeed runs, with cause STARTED and two notifications. */
  lemma NewServiceStarts()
    ensures AfterStart(Fresh(), Cause.Started, true, true)
         == Ok(Snapshot(State.Running, Some(Cause.Started),
                        [Notification(State.Initial, State.Starting, Cause.Started),
                         Notification(State.Starting, State.Running, Cause.Started)]))
  {
    var toStarting := Notification(State.Initial, State.Starting, Cause.Started);
    var toRunning := Notification(State.Starting, State.Running, Cause.Started);
    assert [] + [toStarting] + [toRunning] == [toStarting, toRunning];
  }

  /** A running service whose doStop throws ends FAILED with cause FAILED_TO_STOP, announced in two notifications. */
  lemma RunningServiceFailsToStop(log: seq<Notification>)
    ensures AfterStop(Snapshot(State.Running, Some(Cause.Started), log), Cause.Stopped, false)
         == Snapshot(State.Failed, Some(Cause.FailedToStop),
                     log + [Notification(State.Running, State.Stopping, Cause.Stopped),
                            Notification(State.Stopping, State.Failed, Cause.FailedToStop)])
  {
  }

  /** A stopped service whose doReset returns normally is INITIAL again with cause RESET, in two notifications. */
  lemma StoppedServiceResets(log: seq<Notification>, cause: Option<Cause>)
    ensures AfterReset(Snapshot(State.Stopped, cause, log), true)
         == Ok(Snapshot(State.Initial, Some(Cause.Reset),
                        log + [Notification(State.Stopped, State.Resetting, Cause.Reset),
                               Notification(State.Resetting, State.Initial, Cause.Reset)]))
  {
    var toResetting := Notification(State.Stopped, State.Resetting, Cause.Reset);
    var toInitial := Notification(State.Resetting, State.Initial, Cause.Reset);
    assert log + [toResetting] + [toInitial] == log + [toResetting, toInitial];
  }

  // ---------------------------------------------------------------------------
  // Sequences of calls

  /** One lifecycle call with the answers of the executor and of the hook. */
  datatype Call =
    | StartCall(cause: Cause, dependenciesStarted: bool, hookSucceeds: bool)
    | StopCall(cause: Cause, hookSucceeds: bool)
    | ResetCall(hookSucceeds: bool)

  function Step(m: Snapshot, call: Call): Snapshot {
    match call
    case StartCall(c, deps, ok) => Settle(m, AfterStart(m, c, deps, ok))
    case StopCall(c, ok) => AfterStop(m, c, ok)
    case ResetCall(ok) => Settle(m, AfterReset(m, ok))
  }

  /** The service after the calls, made one after the other. */
  function Run(m: Snapshot, calls: seq<Call>): Snapshot
    decreases |calls|
  {
    if calls == [] then m else Run(Step(m, calls[0]), calls[1..])
  }

  lemma StepKeepsConsistent(m: Snapshot, call: Call)
    requires Consistent(m)
    ensures Consistent(Step(m, call))
  {
    match call
    case StartCall(c, deps, ok) => StartKeepsConsistent(m, c, deps, ok);
    case StopCall(c, ok) => StopKeepsConsistent(m, c, ok);
    case ResetCall(ok) => ResetKeepsConsistent(m, ok);
  }

  /** No call but reset moves a FAILED service out of FAILED. */
  lemma OnlyResetLeavesFailed(m: Snapshot, call: Call)
    requires m.state == State.Failed && Step(m, call).state != State.Failed
    ensures call.ResetCall?
  {
  }

  /** Every sequence of calls keeps the lifecycle invariant. */
  lemma {:induction false} RunKeepsConsistent(m: Snapshot, calls: seq<Call>)
    requires Consistent(m)
    ensures Consistent(Run(m, calls))
    decreases |calls|
  {
    if calls != [] {
      StepKeepsConsistent(m, calls[0]);
      RunKeepsConsistent(Step(m, calls[0]), calls[1..]);
    }
  }

  /** Notifications are only ever appended: what was published stays published, in order. */
  lemma {:induction false} RunExtendsLog(m: Snapshot, calls: seq<Call>)
    ensures m.log <= Run(m, calls).log
    decreases |calls|
  {
    if calls != [] {
      var next := Step(m, calls[0]);
      assert m.log <= next.log;
      RunExtendsLog(next, calls[1..]);
    }
  }

  /**
   * Whatever calls a new service receives, between calls it is INITIAL,
   * RUNNING, STOPPED or FAILED; a FAILED service carries a failure cause (never
   * STARTED); and its notifications form one chain from INITIAL to its current
   * state, each a real change, the last with its current cause.
   */
  lemma NewServiceStaysConsistent(calls: seq<Call>)
    ensures var m := Run(Fresh(), calls);
      && Consistent(m)
      && (m.state == State.Failed ==>
            m.cause.Some? && m.cause.value in {Cause.Failed, Cause.FailedToStop, Cause.FailedToStart, Cause.FailedToReset})
  {
    FreshConsistent();
    RunKeepsConsistent(Fresh(), calls);
  }
}
