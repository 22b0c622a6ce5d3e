/** Optional values and results with an error message, as the services' nullable fields and thrown exceptions. */
module Wrappers {

  datatype Option<+T> = None | Some(value: T)

  /** The outcome of a service call that either returns a value or throws with a message. */
  datatype Result<+T> = Success(value: T) | Failure(error: string)
}
