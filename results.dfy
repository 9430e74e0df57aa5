/** Option and Result: how the model writes Python's None returns and raised exceptions. */
module Results {
  datatype Option<T> = None | Some(value: T)

  datatype Result<T> = Ok(value: T) | Err(message: string)
}
