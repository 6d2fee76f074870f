/** Optional values and the two ways a call can end. */
module Outcomes {

  datatype Option<+T> = None | Some(value: T)

  /** A thrown error is a value here, so that `:-` propagates it as the source's exceptions do. */
  datatype Result<+T> = Ok(value: T) | Err(message: string) {
    predicate IsFailure() { Err? }
    function PropagateFailure<U>(): Result<U> requires Err? { Err(message) }
    function Extract(): T requires Ok? { value }
  }
}
