/** Option and Result: `None` stands for Python's `None` return, `Err` for a raised
    or reported error. */
module Wrappers {

  datatype Option<+T> = None | Some(value: T)

  datatype Result<+T, +E> = Ok(value: T) | Err(error: E)
}
