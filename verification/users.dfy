/** The error vocabulary of the `users` package: every failure carries the
    operation that raised it, an optional coarse code, an optional message
    and an optional wrapped cause. */
module Users {

  datatype Option<T> = None | Some(value: T)

  /** The flat failure taxonomy shared by the stores and the auth service. */
  datatype ErrorCode = ECONFLICT | EINTERNAL | EINVALID | ENOTFOUND | EEXPIRED

  /** `Error` mirrors the package's error struct; `LibraryError` stands for an
      error value produced by a foreign library (bcrypt, golang-jwt), which
      carries no code of this package. */
  datatype Error =
    | Error(op: string, code: Option<ErrorCode>, message: string, cause: Option<Error>)
    | LibraryError

  datatype Result<T> = Ok(value: T) | Err(error: Error)

  /** An error that only adds the operation label to its cause. */
  function Wrap(op: string, cause: Error): Error
  {
    Error(op, None, "", Some(cause))
  }

  /** The code a caller reads off an error: the first explicit code along the
      chain of causes, and EINTERNAL when the chain carries none. */
  function CodeOf(e: Error): (c: ErrorCode)
    ensures e.Error? && e.code.Some? ==> c == e.code.value
    ensures e.Error? && e.code.None? && e.cause.None? ==> c == EINTERNAL
    ensures e.LibraryError? ==> c == EINTERNAL
  {
    match e
    case LibraryError => EINTERNAL
    case Error(_, code, _, cause) =>
      if code.Some? then code.value
      else if cause.Some? then CodeOf(cause.value)
      else EINTERNAL
  }

  /** Wrapping never changes the code a caller reads. */
  lemma WrapKeepsCode(op: string, cause: Error)
    ensures CodeOf(Wrap(op, cause)) == CodeOf(cause)
  {
  }
}
