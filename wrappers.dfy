/** Optional values and results with an error, for the places where the
    source returns `null` or throws. */
module Wrappers {

  /** `None` stands for JavaScript's `null` (a finder that found nothing). */
  datatype Option<+T> = None | Some(value: T)

  /** `Failure` stands for a thrown `Error` carrying `error`. */
  datatype Result<+T, +E> = Success(value: T) | Failure(error: E)
}
