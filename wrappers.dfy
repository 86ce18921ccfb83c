/** Option and Result, used for SQL NULL, for the exceptions the handlers raise and for
    values a library call may fail to produce. */
module Wrappers {

  datatype Option<+T> = None | Some(value: T)

  datatype Result<+R, +E> = Ok(value: R) | Err(error: E)
}
