/** The global exception handler: which HTTP status and body each exception becomes. */
module GlobalExceptionHandler {
  import opened Common
  import SecurityUtil

  /** Status codes, as defined in RFC 9110 */
  const BadRequestStatus := 400    // section 15.5.1
  const UnauthorizedStatus := 401  // section 15.5.2
  const ForbiddenStatus := 403     // section 15.5.4
  const NotFoundStatus := 404      // section 15.5.5
  const ConflictStatus := 409      // section 15.5.10
  const ServerErrorStatus := 500   // section 15.6.1

  const AuthenticationFailedBody := "인증에 실패했습니다."
  const AccessDeniedBody := "접근 권한이 없습니다."
  const InvalidRequestBody := "잘못된 요청입니다."
  const ServerErrorBody := "서버 내부 오류가 발생했습니다."

  /** The body of the validation handler: the first binding error's default message
      (which may itself be null) when there are errors, else the generic text. */
  function ValidationMessage(errors: seq<Option<string>>): (m: Option<string>)
    ensures |errors| == 0 ==> m == Some(InvalidRequestBody)
    ensures |errors| > 0 ==> m == errors[0]
  {
    var message := Some(InvalidRequestBody);
    if |errors| > 0 then errors[0] else message
  }

  /** The response the handler for `e`'s exception class builds. */
  function Handle(e: Exception): (r: Response<string>)
    ensures r.status in {BadRequestStatus, UnauthorizedStatus, ForbiddenStatus, NotFoundStatus, ConflictStatus, ServerErrorStatus}
    ensures e.ResourceNotFound? ==> r == Response(NotFoundStatus, Some(e.message))
    ensures e.BadRequest? ==> r == Response(BadRequestStatus, Some(e.message))
    ensures e.Conflict? ==> r == Response(ConflictStatus, Some(e.message))
    ensures e.Unauthorized? ==> r == Response(UnauthorizedStatus, Some(e.message))
    ensures e.AuthenticationFailed? ==> r == Response(UnauthorizedStatus, Some(AuthenticationFailedBody))
    ensures e.AccessDenied? ==> r == Response(ForbiddenStatus, Some(AccessDeniedBody))
    ensures (e.MethodArgumentNotValid? || e.BindFailure?) ==> r.status == BadRequestStatus
    ensures e.Runtime? ==> r == Response(ServerErrorStatus, Some(ServerErrorBody))
  {
    match e
    case ResourceNotFound(message) => Response(NotFoundStatus, Some(message))
    case BadRequest(message) => Response(BadRequestStatus, Some(message))
    case Conflict(message) => Response(ConflictStatus, Some(message))
    case Unauthorized(message) => Response(UnauthorizedStatus, Some(message))
    case AuthenticationFailed(_) => Response(UnauthorizedStatus, Some(AuthenticationFailedBody))
    case AccessDenied(_) => Response(ForbiddenStatus, Some(AccessDeniedBody))
    case MethodArgumentNotValid(errors) => Response(BadRequestStatus, ValidationMessage(errors))
    case BindFailure(errors) => Response(BadRequestStatus, ValidationMessage(errors))
    case Runtime(_) => Response(ServerErrorStatus, Some(ServerErrorBody))
  }

  /** Only a plain runtime exception becomes a server error; every class the
      handler names explicitly becomes a 4xx client error. */
  lemma ServerErrorOnlyForRuntime(e: Exception)
    ensures Handle(e).status == ServerErrorStatus <==> e.Runtime?
    ensures !e.Runtime? ==> 400 <= Handle(e).status < 500
  {
  }

  /** The body of a fixed-body handler does not depend on the exception's message. */
  lemma FixedBodyIgnoresMessage(e: Exception, other: string)
    requires e.AuthenticationFailed? || e.AccessDenied? || e.Runtime?
    ensures Handle(e) == Handle(e.(message := other))
  {
  }

  /** A validation failure carries its first binding error's default message exactly when it has errors. */
  lemma ValidationBody(errors: seq<Option<string>>)
    ensures Handle(MethodArgumentNotValid(errors)) == Handle(BindFailure(errors))
    ensures Handle(BindFailure(errors)).body == (if |errors| > 0 then errors[0] else Some(InvalidRequestBody))
  {
  }

  /** A request without a usable authentication reaches the handler as a plain RuntimeException,
      so it is answered with 500, not 401. */
  lemma MissingAuthenticationIsServerError(auth: Option<SecurityUtil.Authentication>)
    requires SecurityUtil.CurrentUserId(auth).Err?
    ensures Handle(SecurityUtil.CurrentUserId(auth).error) == Response(ServerErrorStatus, Some(ServerErrorBody))
  {
  }
}
