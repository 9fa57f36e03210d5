/** Success and failure values shared by every layer.

    The JavaScript code throws `Error` objects that may carry a `status`
    property; here a thrown error is a `Failure` value and an operation that
    may throw returns a `Result`.  Operations that change state return a
    `Step`: the state after the call together with what the call returned.
 */
module Outcomes {

  /** `null`/`undefined` versus a present value. */
  datatype Option<+T> = None | Some(value: T) {

    /** The value, or `default` when absent (JavaScript's `x || default`
        on a value that can only be falsy by being absent). */
    function GetOr(default: T): T
    {
      match this
      case Some(v) => v
      case None => default
    }
  }

  /** A thrown `Error`: its optional numeric `status` and its `message`. */
  datatype Failure = Failure(status: Option<int>, message: string)

  /** What an operation that may throw hands back to its caller. */
  datatype Result<+T> = Ok(value: T) | Err(failure: Failure)

  /** The state after an operation together with the operation's result. */
  datatype Step<+S, +T> = Step(state: S, result: T)
}
