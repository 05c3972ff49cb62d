/** Result and option types shared by every module. */
module Basics {

  datatype Option<+T> = None | Some(value: T)

  /** A value, or the exception the source throws instead of one. */
  datatype Result<+T, +E> = Ok(value: T) | Err(error: E)
}
