/** Option and Result, the two failure-carrying shapes the pipeline's code uses
    (Rust's Option/Result, Python's None and raised exceptions). */
module Wrappers {

  datatype Option<+T> = None | Some(value: T)

  datatype Result<+T, +E> = Ok(value: T) | Err(error: E)
}
