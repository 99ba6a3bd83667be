/** Option and Result, the shapes of Rust's `Option`/`Result` and of the
    Python code's status-or-exception returns. */
module Results {

  datatype Option<+T> = None | Some(value: T)

  datatype Result<+T, +E> = Ok(value: T) | Err(error: E)
}
