/** The conventional optional value, shared by every module of the project. */
module Wrappers {

  datatype Option<+T> = None | Some(value: T)

  /** What a fallible operation of the source returns; the error carries no text. */
  datatype Result<+T> = Ok(value: T) | Err
}
