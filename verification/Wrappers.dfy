/** Result types shared by the modules of this project. */
module Wrappers {

  datatype Option<+T> = None | Some(value: T)

  /** What a source operation returns, or the error it throws. */
  datatype Result<+T> = Ok(value: T) | Err(error: string)
}
