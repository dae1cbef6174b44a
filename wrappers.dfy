/** Result and Option values standing for a JavaScript call that either returns or throws. */
module Wrappers {

  /** `Ok(value)`: the call returned `value`; `Err(error)`: the call threw an error of kind `error`. */
  datatype Result<+T, +E> = Ok(value: T) | Err(error: E)

  datatype Option<+T> = None | Some(value: T)
}
