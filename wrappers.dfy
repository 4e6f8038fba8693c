/** Option and Result types shared by every module of the model. */
module Wrappers {

  datatype Option<+T> = None | Some(value: T)

  /** The outcome of a mutation or query that may throw: `Err` carries the message of
      the error the handler would throw. */
  datatype Result<+T> = Ok(value: T) | Err(error: string)
}
