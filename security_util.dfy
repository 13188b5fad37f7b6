/** Resolving the id of the signed-in user from the security context's authentication. */
module SecurityUtil {
  import opened Common

  /** The principal of an authentication: a UserDetails object, a plain String, or anything else. */
  datatype Principal = UserDetails(username: string) | Text(value: string) | OtherPrincipal

  datatype Authentication = Authentication(authenticated: bool, principal: Principal)

  const MissingAuthentication := "인증 정보가 없습니다."
  const InvalidAuthentication := "유효하지 않은 인증 정보입니다."

  predicate IsAuthenticated(auth: Option<Authentication>) {
    auth.Some? && auth.value.authenticated
  }

  /** The current user's id. The JWT filter stores the user id as the UserDetails username,
      so that username is the id. Every failure is a plain RuntimeException. */
  function CurrentUserId(auth: Option<Authentication>): (r: Result<string>)
    ensures r.Ok? <==> IsAuthenticated(auth) && !auth.value.principal.OtherPrincipal?
    ensures !IsAuthenticated(auth) ==> r == Err(Runtime(MissingAuthentication))
    ensures IsAuthenticated(auth) && auth.value.principal.OtherPrincipal? ==> r == Err(Runtime(InvalidAuthentication))
    ensures IsAuthenticated(auth) && auth.value.principal.UserDetails? ==> r == Ok(auth.value.principal.username)
    ensures IsAuthenticated(auth) && auth.value.principal.Text? ==> r == Ok(auth.value.principal.value)
  {
    if auth.None? || !auth.value.authenticated then
      Err(Runtime(MissingAuthentication))
    else
      match auth.value.principal
      case UserDetails(username) => Ok(username)
      case Text(value) => Ok(value)
      case OtherPrincipal => Err(Runtime(InvalidAuthentication))
  }
}
