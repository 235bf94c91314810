/** Option and Result, with the Python exceptions the scripts can raise as the error side. */
module Wrappers {

  /** `None` also stands for a missing pandas value (NaN). */
  datatype Option<+T> = None | Some(value: T)

  /** The exception a Python expression would raise instead of producing a value. */
  datatype Raised = IndexError | ValueError | KeyError | TypeError

  datatype Result<+T> = Ok(value: T) | Err(error: Raised)
}
