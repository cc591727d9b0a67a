/** Result and Option, for the exceptions and the `None` returns of the program. */
module Wrappers {
  datatype Option<+T> = None | Some(value: T)

  datatype Result<+T> = Success(value: T) | Failure(reason: string)
}
