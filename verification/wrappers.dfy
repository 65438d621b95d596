/** Plain wrapper datatypes shared by the MTC model: `Option`, a value-or-error
    `Result`, and a value-less `Outcome` for operations that return `Result<()>`.
    They are matched on explicitly; none of them is used with `:-`. */
module Wrappers {

  datatype Option<+T> = None | Some(value: T)

  datatype Result<+R, +E> = Success(value: R) | Failure(error: E)

  /** The outcome of an operation that only reports success or an error. */
  datatype Outcome<+E> = Pass | Fail(error: E)
}
