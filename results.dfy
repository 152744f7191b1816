/** Optional values and results with an error side, for the JavaScript values
    that may be `undefined` and for the operations that throw. */
module Results {

  datatype Option<+T> = None | Some(value: T)

  datatype Result<+T, +E> = Ok(value: T) | Err(error: E)
}
