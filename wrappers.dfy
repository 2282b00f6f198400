/** Option and Result: null-or-value and value-or-error, as the reactive code's
    empty Mono, value Mono and error Mono. */
module Wrappers {

  datatype Option<+T> = None | Some(value: T)

  datatype Result<+R, +E> = Success(value: R) | Failure(error: E)
}
