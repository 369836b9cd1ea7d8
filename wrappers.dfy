/** Option, shared by every module of the model. */
module Wrappers {

  /** A value that may be absent: Python's `None`, JavaScript's `null`/`undefined`. */
  datatype Option<+T> = None | Some(value: T)
}

/** The shape of an Express handler's response. */
module Http {

  /** A success body, or an error status with the handler's message. A success is
      sent with status 200, except where a handler says 201. */
  datatype Reply<T> = Ok(value: T) | Err(status: nat, message: string)
}
