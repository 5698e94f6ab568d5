// Small generic datatypes shared by the modules of the model.
module Prelude {

  datatype Option<+T> = None | Some(value: T)

  /** A call either answers with a value or fails with an error, as a Go (value, error) pair. */
  datatype Result<+T, +E> = Ok(value: T) | Err(error: E)
}
