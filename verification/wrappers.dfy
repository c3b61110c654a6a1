/** Optional values and results with an error value, as the model's operations return them. */
module Wrappers {

  /** A value that may be absent; stands for the source's `T | null` and `T | undefined`. */
  datatype Option<+T> = None | Some(value: T) {

    /** The wrapped value, or `default` when absent (the source's `?? default`). */
    function GetOr(default: T): T {
      match this
      case Some(v) => v
      case None => default
    }
  }

  /** The outcome of an operation that can throw: a value, or the error it throws. */
  datatype Result<+R, +E> = Ok(value: R) | Err(error: E) {

    /** True on an error: `:-` stops there and passes the error on. */
    predicate IsFailure() {
      Err?
    }

    /** The same error, as a result of another value type. */
    function PropagateFailure<U>(): Result<U, E>
      requires Err?
    {
      Err(error)
    }

    /** The value of a success. */
    function Extract(): R
      requires Ok?
    {
      value
    }
  }
}
