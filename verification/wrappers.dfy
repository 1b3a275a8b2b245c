/** Failure-carrying values shared by every module of the model. */
module Wrappers {

  /** A value that may be missing, the model's stand-in for a nil pointer. */
  datatype Option<T> = None | Some(value: T)

  /** The outcome of an operation that either succeeds or reports an error
      message (the Go code's `(value, error)` pair, or a panic). */
  datatype Result<T> = Ok(value: T) | Err(msg: string) {
    predicate IsFailure() { Err? }

    function PropagateFailure<U>(): Result<U>
      requires Err?
    {
      Err(msg)
    }

    function Extract(): T
      requires Ok?
    {
      value
    }
  }
}
