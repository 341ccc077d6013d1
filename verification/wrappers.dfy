/** Wrappers used in place of `undefined`, `throw` and `process.exit` in the
    modelled TypeScript. */
module Wrappers {

  /** A value that may be absent (`undefined` in the source). */
  datatype Option<+T> = None | Some(value: T)

  /** A computation that either produces a value or fails with an error
      (a thrown `Error` in the source). */
  datatype Result<+R, +E> = Success(value: R) | Failure(error: E)

  /** A check that either passes or fails with an error. */
  datatype Outcome<+E> = Pass | Fail(error: E)
}
