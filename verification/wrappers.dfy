/** Failure-carrying datatypes used throughout the model.

    JavaScript code in this system signals failure by throwing an `Error`
    whose only inspected part is its `message`; `Result` models exactly that.
    `Option` models values that may be `null`/`undefined`. */
module Wrappers {

  datatype Option<+T> = None | Some(value: T)

  /** `Ok(v)` is a normal completion with value `v`; `Err(m)` is a thrown
      error whose `message` is `m`. */
  datatype Result<+T> = Ok(value: T) | Err(message: string)

}
