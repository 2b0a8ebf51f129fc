/** Option and Result values: a missing size hint, a decoding that can fail,
    and a handler that can raise. */
module Results {

  datatype Option<+T> = None | Some(value: T)

  datatype Result<+T, +E> = Success(value: T) | Failure(error: E)
}
