/** Option and Result: the two failure-carrying types the model uses for the
    source's `Option` and `anyhow::Result` returns. */
module Wrappers {

  datatype Option<+T> = None | Some(value: T)

  datatype Result<+T, +E> = Ok(value: T) | Err(error: E)
}
