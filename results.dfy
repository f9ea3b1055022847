/** Failure-carrying values shared by the sequencer modules. */
module Results {

  /** A value that may be absent (a nil value, an empty peek). */
  datatype Option<+T> = None | Some(value: T)

  /** A value or the error that prevented computing it (Go's `(T, error)` pair). */
  datatype Result<+T, +E> = Ok(value: T) | Err(error: E)
}
