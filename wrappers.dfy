/** Option and Result values used across the model. */
module Wrappers {

  datatype Option<T> = None | Some(value: T)
  {
    predicate IsSome() { Some? }
  }

  /** An error carries a status code and a message, as absl::Status and Go errors do. */
  datatype Code = InvalidArgument | Unknown | Usage | Runtime

  datatype Error = Error(code: Code, message: string)

  datatype Result<T> = Ok(value: T) | Fail(error: Error)
  {
    predicate IsOk() { Ok? }
  }
}
