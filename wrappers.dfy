/** Optional values and results with an error message, used throughout the model. */
module Wrappers {

  /**
   * A value that may be absent: for a document field, a field the JSON does not
   * have; for a nullable field of a file-list entry, `null`.
   */
  datatype Option<+T> = None | Some(value: T)

  /** The outcome of an operation that can reject with an `Error` carrying a message. */
  datatype Result<+T> = Ok(value: T) | Err(error: string)
}
