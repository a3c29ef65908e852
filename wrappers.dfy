/** Optional values and results with an error, as the repositories return them. */
module Wrappers {

  /** `None` stands for PHP's `false` from a fetch on an empty result, or for an empty object. */
  datatype Option<+T> = None | Some(value: T)

  /** A value, or the error the source throws instead of returning. */
  datatype Result<+R, +E> = Success(value: R) | Failure(error: E)
}
