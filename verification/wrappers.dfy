/** Failure-compatible wrappers used by the formatter model.
    - Option<T> stands for a TypeScript value that may be `undefined`.
    - Result<R, E> stands for a call that either returns or throws.
 */
module Wrappers {

  datatype Option<+T> = None | Some(value: T)

  datatype Result<+R, +E> = Success(value: R) | Failure(error: E)
}
