/** Optional values and handler outcomes, shared by every module of the model. */
module Common {

  datatype Option<+T> = None | Some(value: T)

  /** The outcome of a request handler: a payload, or the error it answers with. */
  datatype Result<+R, +E> = Success(value: R) | Failure(error: E)
}
