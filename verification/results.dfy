/** Presence/absence and success/failure wrappers shared by the filesystem
    model and the storage driver. */
module Results {

  /** A value that may be missing (an encoder or decoder that can fail). */
  datatype Option<+T> = None | Some(value: T)

  /** The outcome of an operation: a value, or the error it reports. */
  datatype Result<+T, +E> = Ok(value: T) | Err(error: E)
}
