/** Option and Result, used for a file that may not open and for the
    exceptions std::stoi can throw. */
module Wrappers {

  datatype Option<+T> = None | Some(value: T)

  datatype Result<+T, +E> = Ok(value: T) | Err(error: E)
}
