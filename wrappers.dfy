/** Optional values and failing results, for the nullable fields and the thrown errors of the source. */
module Wrappers {

  /** `T | null`, `T | undefined` and optional (`?`) fields. */
  datatype Option<+T> = None | Some(value: T)

  /** A call that either returns a value or throws an `Error` carrying a message. */
  datatype Result<+T> = Ok(value: T) | Err(message: string)
}
