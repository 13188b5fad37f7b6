/** Values shared by the backend services: optional values, the exceptions the
    services throw, results of operations that may throw, and HTTP responses. */
module Common {

  /** A Java reference that may be null, or a JavaScript value that may be undefined. */
  datatype Option<T> = None | Some(value: T)

  /** The exceptions that reach the global exception handler. */
  datatype Exception =
    | ResourceNotFound(message: string)
    | BadRequest(message: string)
    | Conflict(message: string)
    | Unauthorized(message: string)
    /** Spring Security's AuthenticationException */
    | AuthenticationFailed(message: string)
    /** Spring Security's AccessDeniedException */
    | AccessDenied(message: string)
    /** MethodArgumentNotValidException; `errors` holds the default message of each binding error, in order */
    | MethodArgumentNotValid(errors: seq<Option<string>>)
    /** BindException, with the same view of its binding result */
    | BindFailure(errors: seq<Option<string>>)
    /** Any other exception, in particular a plain RuntimeException */
    | Runtime(message: string)

  /** The outcome of a call that either returns a value or throws. */
  datatype Result<T> = Ok(value: T) | Err(error: Exception)

  /** An HTTP response; `body` is None for a response built without a body. */
  datatype Response<B> = Response(status: int, body: Option<B>)

  /** What a state-changing service call returns, together with the store it leaves behind. */
  datatype Step<T, R> = Step(out: Result<T>, store: map<string, R>)
}
