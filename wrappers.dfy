/** Option and Result, the two failure-carrying shapes the registry's Rust code uses everywhere. */
module Wrappers {

  datatype Option<+T> = None | Some(value: T)

  datatype Result<+T, +E> = Ok(value: T) | Err(error: E)
}
