/** Option and Result: the model's stand-ins for Python's None and for a call
    that either returns a value or raises. */
module Base {

  datatype Option<+T> = None | Some(value: T)

  datatype Result<+T, +E> = Ok(value: T) | Err(error: E)
}
