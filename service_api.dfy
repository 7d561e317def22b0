/**
 * The value types a service exposes: its lifecycle states, the causes of a
 * transition, the status snapshot every lifecycle call returns and the
 * state-change notification published on every realized transition.
 */
module ServiceApi {

  /** A possibly absent value; a service's cause is absent until its first transition. */
  datatype Option<+T> = None | Some(value: T)

  /** The lifecycle phase a service is in. */
  datatype State = Initial | Starting | Running | Stopping | Stopped | Resetting | Failed

  /** Why the current state was entered. */
  datatype Cause =
    | Started
    | Stopped
    | Failed
    | FailedToStart
    | FailedToStop
    | FailedToReset
    | Reset
    | DependencyFailed
    | DependencyStopped

  /** The immutable (state, cause) pair handed back by every lifecycle call. */
  datatype Status = Status(state: State, cause: Option<Cause>)

  /** One published state change: the state left, the state entered, and the cause. */
  datatype Notification = Notification(previous: State, current: State, cause: Cause)

  /** A lifecycle call either completes with a value or raises a state-conflict error. */
  datatype Result<+T> = Ok(value: T) | StateConflict(message: string)
}
