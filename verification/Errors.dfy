/** Errors: the error values that cross component boundaries, and their classification. */
module Errors {
  datatype Option<+T> = None | Some(value: T)

  datatype Result<+T> = Ok(value: T) | Err(error: Error)

  datatype Error =
    | Canceled
    | DeadlineExceeded
    | EmptyQuery
    | QueryTooLong
    | InvalidTimestamp
    | EventFromFuture
    | DecodeError
    | ValidationError
    | OtherError

  /** Rejections of an event by the aggregator. */
  predicate IsValidationError(e: Error) {
    e.EmptyQuery? || e.QueryTooLong? || e.InvalidTimestamp? || e.EventFromFuture?
  }

  predicate IsContextError(e: Error) {
    e.Canceled? || e.DeadlineExceeded?
  }
}
