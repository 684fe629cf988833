/** Optional values and handler outcomes shared by every route module. */
module Wrappers {

  /** A value that may be missing: `undefined` or `null` in a request body, a row that does not exist. */
  datatype Option<+T> = None | Some(value: T)

  /** What a route handler answers: a success value, or an error that the route maps to a status code. */
  datatype Result<+R, +E> = Success(value: R) | Failure(error: E)
}
