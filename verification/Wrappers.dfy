/** Values that may be absent, and computations that may refuse. */
module Wrappers {
  datatype Option<+T> = None | Some(value: T)

  datatype Result<+T> = Ok(value: T) | Refused(reason: string)
}
