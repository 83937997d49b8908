/** Optional values and the outcome of an operation that may raise. */
module Outcomes {
  datatype Option<+T> = None | Some(value: T)

  /** The exception kinds the modelled functions raise. */
  datatype Error = ValueError | IndexError | KeyError | TypeError | DecodeError | OverflowError | StructError | NotImplemented

  datatype Result<+T> = Success(value: T) | Failure(error: Error)
  {
    predicate IsFailure() { Failure? }
    function PropagateFailure<U>(): Result<U>
      requires Failure?
    { Failure(error) }
    function Extract(): T
      requires Success?
    { value }
  }
}
