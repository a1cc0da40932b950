/** Failure-carrying values shared by the installer model.
    The source reports every failure as a formatted message (an `anyhow` error),
    so an error here carries the message text. */
module Wrappers {

  datatype Option<+T> = None | Some(value: T)

  /** `Ok(value)` or `Err(msg)`, as the source's `Result<T>` */
  datatype Result<+T> = Ok(value: T) | Err(msg: string)

  /** `Result<()>` of the source */
  datatype Outcome = Pass | Fail(msg: string)
}
