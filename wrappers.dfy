/** The two failure-carrying shapes the model needs: JavaScript's
    `T | undefined` and a value-or-thrown-error result. */
module Wrappers {

  datatype Option<+T> = None | Some(value: T)

  datatype Result<+R, +E> = Ok(value: R) | Err(error: E)
}
