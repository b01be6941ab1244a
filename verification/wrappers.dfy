/** Failure-carrying datatypes shared by the whole model. */
module Wrappers {

  /** An optional value; `None` stands for JavaScript's `null` or "absent". */
  datatype Option<+T> = None | Some(value: T) {

    /** Returns the value, or `default` when there is none. */
    function GetOr(default: T): T {
      match this
      case Some(v) => v
      case None => default
    }
  }

  /** The outcome of a call that may throw: either the value it returned or
      the message of the exception it raised. */
  datatype Outcome<+T> = Returned(value: T) | Threw(message: string)
}
