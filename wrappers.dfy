/** Result and Option values, standing in for the `make_ok` / `make_err` results
    that every module of the system returns instead of throwing. */
module Wrappers {

  datatype Option<+T> = None | Some(value: T)

  datatype Result<+T, +E> = Ok(value: T) | Err(error: E)
}
