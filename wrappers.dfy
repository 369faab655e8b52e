/** Option and result types shared by every module of the model. */
module Wrappers {
  datatype Option<T> = None | Some(value: T)

  /** What a JavaScript `throw` in the library amounts to. */
  datatype Error =
    | TypeError        // a property of `undefined` was read (typically a missing id)
    | ReferenceError   // an undeclared variable was read
    | Undefined        // `throw console.error(...)` or `throw console.warn(...)`: both throw `undefined`

  datatype Result<T> = Ok(value: T) | Err(error: Error)

  /** The result of an operation that returns nothing when it succeeds. */
  datatype Outcome = Pass | Fail(error: Error)
}
