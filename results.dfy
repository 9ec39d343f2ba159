/** Optional values and explicit failures, used in place of Python's `None`
    and of the exceptions the modelled code raises. */
module Results {

  datatype Option<+T> = None | Some(value: T)

  datatype Result<+T, +E> = Ok(value: T) | Err(error: E)
}
