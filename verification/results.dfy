/** Failure-carrying wrappers used by every layer of the model: an absent
    reference becomes `None`, a thrown exception or error response becomes `Err`. */
module Results {

  /** A possibly absent value (a Java reference that may be null). */
  datatype Option<+T> = None | Some(value: T)

  /** The outcome of an operation that may fail with an error of type E. */
  datatype Result<+T, +E> = Ok(value: T) | Err(error: E)
}
