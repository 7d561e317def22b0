# Service lifecycle state machine (krail service-api)

A Dafny model of the lifecycle of a krail service, `AbstractService`. A service
holds a current `State` (INITIAL, STARTING, RUNNING, STOPPING, STOPPED, RESETTING,
FAILED) and the `Cause` that brought it there. The cause is absent until the first
transition. The lifecycle calls are `start`, `stop` and `reset`. `fail`,
`dependencyFail` and `dependencyStop` are `stop` with a fixed cause. Each call
checks the current state. It then does one of three things:

- it returns the status unchanged;
- it raises the state-conflict error (`ServiceStatusException`);
- it moves through an intermediate state to a final state. The final state
  depends on the cause, on the answer of the dependency executor, and on whether
  the business hook (`doStart`, `doStop`, `doReset`) threw.

Every change of state goes through `setState`. It writes state and cause together,
and publishes one (previous, new, cause) notification, but only when the state
really changes.

Files:

- `service_api.dfy` (module `ServiceApi`): the value types. These are the two
  enumerations, the `Status` snapshot returned by every call, the `Notification`
  published on the bus, and `Result`, which is either a value or the
  state-conflict error with its message.
- `lifecycle.dfy` (module `Lifecycle`): the specification on values.
  - `Snapshot` is what an observer sees: state, cause, and every notification
    published so far.
  - `AfterStop`, `AfterStart` and `AfterReset` give the transition table of each
    call as a function of the snapshot before it.
  - `Consistent` is the lifecycle invariant: between calls the service is at rest
    (INITIAL, RUNNING, STOPPED or FAILED), its cause fits its state, and the
    notifications form one chain of real moves from INITIAL to the current state
    and cause.
  - Each call is proved to keep `Consistent`.
- `abstract_service.dfy` (module `ServiceCore`): the class `AbstractService`.
  - It has the fields `state` and `cause`, and a ghost `log` that stands for the
    message bus.
  - `SetState` is the only method that moves the state. Each lifecycle method
    takes the same steps as the Java method, through `SetState` in the same
    order.
  - Each method is proved to end in the snapshot its transition table gives, to
    return the status the fields then hold, and to keep the class invariant.
- `lifecycle_properties.dfy` (module `LifecycleProperties`): lemmas about the
  transition tables.
  - The outcome of each call in each case, idempotence, and the fact that
    conflicts change nothing.
  - FAILED can only be left by `reset`: start from FAILED is a conflict for every
    executor answer and hook outcome, and no other call moves a FAILED service.
  - The scenarios a service's users depend on.
  - By induction over any sequence of calls made on a new service: the invariant
    holds throughout, and notifications are only ever appended.

The dependency executor and the hooks are inputs. Each method takes the executor's
boolean answer and a boolean saying whether the hook returned normally. The stop
methods also take the executor's answer (`dependenciesStopped`), as the source
calls the executor there too. No postcondition mentions it: the answer plays no
part in the outcome.

`start` from RESETTING is accepted: `start(Cause)` raises the conflict only from
STOPPING and FAILED (AbstractService.java:196-201), so RESETTING takes the normal
path through STARTING (`StartFromIdle`).

## Model

| member | source | states |
|---|---|---|
| `Lifecycle.StopStateFromCause` | src/main/java/uk/q3c/krail/service/AbstractService.java:137-142 | the state a successful stop ends in is FAILED exactly for the causes FAILED and FAILED_TO_STOP, and STOPPED for every other cause |
| `Lifecycle.FreshConsistent` | src/main/java/uk/q3c/krail/service/AbstractService.java:60-67 | a new service (INITIAL, no cause, nothing published) satisfies the lifecycle invariant |
| `Lifecycle.StopKeepsConsistent` | src/main/java/uk/q3c/krail/service/AbstractService.java:105-135 | stop(c) with any cause and either hook outcome keeps the invariant: at rest, a cause that fits the state, notifications chained and each a real move |
| `Lifecycle.StartKeepsConsistent` | src/main/java/uk/q3c/krail/service/AbstractService.java:191-222 | start(c) keeps the invariant for every executor answer and hook outcome, including the revert on dependency failure; a conflict leaves the service as it was |
| `Lifecycle.ResetKeepsConsistent` | src/main/java/uk/q3c/krail/service/AbstractService.java:161-181 | reset() keeps the invariant whether doReset returns or throws; a conflict leaves the service as it was |
| `Lifecycle.AppendMoves` | src/main/java/uk/q3c/krail/service/AbstractService.java:237-245 | two realized setState moves appended to a chained log, the first leaving the current state, keep it chained, with the last notification carrying the new state and cause |
| `ServiceCore.AbstractService.constructor` | src/main/java/uk/q3c/krail/service/AbstractService.java:60-67 | a new service is INITIAL with no cause and no notification, and satisfies the class invariant |
| `ServiceCore.AbstractService.GetState` | src/main/java/uk/q3c/krail/service/AbstractService.java:231-234 | returns the current state |
| `ServiceCore.AbstractService.GetCause` | src/main/java/uk/q3c/krail/service/AbstractService.java:89-92 | returns the current cause, absent before the first transition |
| `ServiceCore.AbstractService.IsStarted` | src/main/java/uk/q3c/krail/service/AbstractService.java:94-97 | true exactly when the state is RUNNING |
| `ServiceCore.AbstractService.IsStopped` | src/main/java/uk/q3c/krail/service/AbstractService.java:151-154 | true exactly when the state is STOPPED |
| `ServiceCore.AbstractService.SetState` | src/main/java/uk/q3c/krail/service/AbstractService.java:237-245 | with a new state: state and cause are written together and exactly one (previous, new, cause) notification is appended; with the current state: state, cause and log are all unchanged |
| `ServiceCore.AbstractService.StopWith` | src/main/java/uk/q3c/krail/service/AbstractService.java:105-135 | ends in the snapshot of the stop table for (old snapshot, c, hook outcome), independent of the executor's answer; returns the status the fields then hold; keeps the class invariant |
| `ServiceCore.AbstractService.Stop` | src/main/java/uk/q3c/krail/service/AbstractService.java:99-102 | behaves exactly as stop with cause STOPPED |
| `ServiceCore.AbstractService.Fail` | src/main/java/uk/q3c/krail/service/AbstractService.java:156-159 | behaves exactly as stop with cause FAILED |
| `ServiceCore.AbstractService.DependencyFail` | src/main/java/uk/q3c/krail/service/AbstractService.java:247-250 | behaves exactly as stop with cause DEPENDENCY_FAILED |
| `ServiceCore.AbstractService.DependencyStop` | src/main/java/uk/q3c/krail/service/AbstractService.java:252-255 | behaves exactly as stop with cause DEPENDENCY_STOPPED |
| `ServiceCore.AbstractService.Reset` | src/main/java/uk/q3c/krail/service/AbstractService.java:161-181 | ends in the snapshot of the reset table, or unchanged on a conflict; returns the status or the conflict message; doReset's failure is reported in the status, never raised; keeps the class invariant |
| `ServiceCore.AbstractService.StartWith` | src/main/java/uk/q3c/krail/service/AbstractService.java:191-222 | ends in the snapshot of the start table for (old snapshot, c, executor answer, hook outcome), or unchanged on a conflict; returns the status or the conflict message; keeps the class invariant |
| `ServiceCore.AbstractService.Start` | src/main/java/uk/q3c/krail/service/AbstractService.java:224-227 | behaves exactly as start with cause STARTED |
| `LifecycleProperties.StopIgnoredIsNoOp` | src/main/java/uk/q3c/krail/service/AbstractService.java:107-114 | stop from STOPPED, STOPPING, FAILED, RESETTING or INITIAL changes neither state, cause nor the notifications |
| `LifecycleProperties.StopFromActive` | src/main/java/uk/q3c/krail/service/AbstractService.java:115-131 | stop from STARTING or RUNNING publishes the move to STOPPING and then to the final state. If doStop returns, it ends FAILED for the causes FAILED and FAILED_TO_STOP and STOPPED otherwise, with cause c. If doStop throws, it ends FAILED with cause FAILED when c is FAILED and FAILED_TO_STOP otherwise |
| `LifecycleProperties.StopIdempotent` | src/main/java/uk/q3c/krail/service/AbstractService.java:107-135 | a second stop, with any cause and hook outcome, changes nothing |
| `LifecycleProperties.StartGuards` | src/main/java/uk/q3c/krail/service/AbstractService.java:191-201 | start is a no-op exactly from RUNNING or STARTING, and raises the conflict exactly from STOPPING or FAILED, each with the source's message |
| `LifecycleProperties.StartFromIdle` | src/main/java/uk/q3c/krail/service/AbstractService.java:203-221 | start from INITIAL, STOPPED or RESETTING publishes the move to STARTING. Then: if the executor fails, it moves back to the beginning state with cause DEPENDENCY_FAILED; if doStart returns, it ends RUNNING with cause c; if doStart throws, it ends FAILED with cause FAILED_TO_START |
| `LifecycleProperties.StartIdempotentOnSuccess` | src/main/java/uk/q3c/krail/service/AbstractService.java:191-195 | once a start has succeeded, any further start changes nothing |
| `LifecycleProperties.ResetCases` | src/main/java/uk/q3c/krail/service/AbstractService.java:162-181 | reset is a no-op exactly from INITIAL or RESETTING, and a conflict exactly from STARTING, RUNNING or STOPPING. From STOPPED or FAILED it goes through RESETTING/RESET and ends INITIAL/RESET, or FAILED/FAILED_TO_RESET if doReset throws |
| `LifecycleProperties.ConflictChangesNothing` | src/main/java/uk/q3c/krail/service/AbstractService.java:162-201 | a state-conflict error from start or reset leaves state, cause and notifications as they were |
| `LifecycleProperties.FailedMustBeReset` | src/main/java/uk/q3c/krail/service/AbstractService.java:161-222 | a FAILED service refuses to start, for every executor answer and hook outcome; after a reset whose doReset returns, it is INITIAL and a start succeeds |
| `LifecycleProperties.OnlyResetLeavesFailed` | src/main/java/uk/q3c/krail/service/AbstractService.java:105-201 | from FAILED, a call that ends in a state other than FAILED is a reset: stop ignores FAILED and start raises the conflict |
| `LifecycleProperties.NewServiceIgnoresStop` | src/main/java/uk/q3c/krail/service/AbstractService.java:111-114 | stop on a new service leaves it INITIAL with nothing published |
| `LifecycleProperties.NewServiceStarts` | src/main/java/uk/q3c/krail/service/AbstractService.java:203-221 | a new service whose dependencies and doStart succeed is RUNNING with cause STARTED, after exactly the notifications INITIAL→STARTING and STARTING→RUNNING |
| `LifecycleProperties.RunningServiceFailsToStop` | src/main/java/uk/q3c/krail/service/AbstractService.java:115-131 | a running service whose doStop throws ends FAILED with cause FAILED_TO_STOP, after RUNNING→STOPPING and STOPPING→FAILED |
| `LifecycleProperties.StoppedServiceResets` | src/main/java/uk/q3c/krail/service/AbstractService.java:169-174 | a stopped service whose doReset returns is INITIAL with cause RESET, after STOPPED→RESETTING and RESETTING→INITIAL |
| `LifecycleProperties.StepKeepsConsistent` | src/main/java/uk/q3c/krail/service/AbstractService.java:105-222 | any single lifecycle call, with any answers from executor and hook, keeps the lifecycle invariant |
| `LifecycleProperties.RunKeepsConsistent` | src/main/java/uk/q3c/krail/service/AbstractService.java:105-245 | the lifecycle invariant holds after any sequence of calls |
| `LifecycleProperties.RunExtendsLog` | src/main/java/uk/q3c/krail/service/AbstractService.java:284-287 | published notifications are never removed or reordered: the log before any sequence of calls is a prefix of the log after it |
| `LifecycleProperties.NewServiceStaysConsistent` | src/main/java/uk/q3c/krail/service/AbstractService.java:60-245 | whatever calls a new service receives, between calls it is INITIAL, RUNNING, STOPPED or FAILED. A FAILED service always carries a failure cause (never STARTED). Its notifications form one chain from INITIAL to the current state and cause |

## Left out

- Service identity in `ServiceStatus` (the service reference): `Status` holds only state and cause, because the model has one service.
- A null cause passed as an argument to `stop(Cause)` or `start(Cause)`: causes passed in are always enumeration values. Only the service's own cause field can be absent.
- Throwables that are not `Exception`s (Java `Error`s) thrown by a hook: these escape the `catch` blocks. The model has only "returns normally" and "throws an Exception".
- An exception thrown by the dependency executor: `servicesExecutor.execute` is called outside the `try` blocks (lines 118 and 206), so such an exception reaches the caller with the service left in STOPPING or STARTING. From STOPPING every later call then does nothing or raises the conflict. The model assumes the executor returns normally. `Consistent`'s at-rest clause and `NewServiceStaysConsistent` depend on that assumption.
- Hooks that touch the service itself: a hook may call back into the same service (Java monitors are reentrant, so for example `fail()` from inside `doStart` runs), and a subclass may assign the protected `state` field (line 60) directly, bypassing `setState`. The model assumes `doStart`, `doStop` and `doReset` do neither.
- The default `doReset` (lines 183-189) does nothing, so it always returns normally. The model instead lets the reset hook's outcome be an input, which covers overriding hooks.
- The `RelatedServiceExecutor` traversal of the dependency graph is an input boolean. A re-entrant call from it into the same service, while that service is in an intermediate state, is not modelled. This is why the invariant places services at rest between calls.
- `synchronized` and thread safety: each call is one atomic sequential method.
- Name and description resolution through `Translate` and `I18NKey` (lines 80-87, 146-149, 257-273): it is used only for logging and display.
- The `MessageBus` transport and its subscription in the constructor and in `readObject` (lines 70-78, 284-293). A published notification is one entry appended to the ghost `log`.
- Java serialization (`readObject`, `SerializationSupport`, lines 289-297) and Guice injection: framework plumbing.
- Logging, and the instance-number getter and setter (lines 275-281): trivial or I/O.
- `ServiceConfigurationException`: it has only constructors that delegate to `RuntimeException`, and no logic.
- The visibility of `start(Cause)` (protected) and `setState` (private): Dafny class members are all public.
