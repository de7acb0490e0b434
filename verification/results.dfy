/** Failure-carrying wrappers used by every instruction of the model. */
module Results {

  /** An optional value. */
  datatype Option<+T> = None | Some(value: T)

  /** The outcome of an instruction: the new state, or the reason it was rejected. */
  datatype Result<+T, +E> = Ok(value: T) | Err(error: E)
}
