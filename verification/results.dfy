/** Optional values and results with an error, used wherever the modelled
    code either returns nothing or raises. */
module Results {

  datatype Option<+T> = None | Some(value: T)

  datatype Result<+T, +E> = Ok(value: T) | Err(error: E)
}
