/** Small value wrappers shared by the modules: an optional value (Python's `None` or a
    value) and the outcome of an operation that can raise. */
module Common {
  datatype Option<T> = None | Some(value: T)

  datatype Result<T, E> = Ok(value: T) | Err(error: E)
}
