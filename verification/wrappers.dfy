/** Option and Result: the "undefined" and "throws" outcomes of the JavaScript code. */
module Wrappers {

  /** A value that may be absent (a JavaScript property that is `undefined`). */
  datatype Option<+T> = None | Some(value: T)

  /** A computation that either yields a value or throws. */
  datatype Result<+R, +E> = Success(value: R) | Failure(error: E)
}
