/** Failure-carrying results shared by the shape algebra and the tensor handle. */
module Wrappers {

  /** A value that may be absent; `None` stands for the type-level `never`. */
  datatype Option<+T> = None | Some(value: T)

  /** A value or a diagnostic message. */
  datatype Result<+T> = Ok(value: T) | Err(message: string)
}
