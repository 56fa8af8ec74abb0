/** Option and Result values standing in for Python's None returns and raised exceptions. */
module Wrappers {

  datatype Option<+T> = None | Some(value: T)

  /** `Err` stands for a Python exception; the model does not distinguish exception classes. */
  datatype Result<+T> = Ok(value: T) | Err
}
