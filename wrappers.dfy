/** Failure-carrying values used wherever the Go code returns an `error`. */
module Wrappers {

  datatype Option<+T> = None | Some(value: T)

  /** An operation that either produced a value or failed with a message (Go's `(T, error)`). */
  datatype Result<+T> = Ok(value: T) | Err(msg: string) {
    predicate IsFailure() { Err? }
  }

  /** Go's bare `error` return: `nil` is `Pass`. */
  datatype Outcome = Pass | Fail(msg: string)
}
