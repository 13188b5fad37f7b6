/** The authentication calls of the browser client: the message a failed call rejects with,
    what a successful call resolves to, and the keys logout clears. */
module ApiClient {
  import opened Common

  /** What JSON.parse makes of a body: an object whose `message` field may be missing, or a
      SyntaxError. */
  datatype Parsed = JsonObject(message: Option<string>) | SyntaxError

  /** The status flag and text of an HTTP reply. */
  datatype Reply = Reply(ok: bool, text: string)

  /** A promise's settled state. */
  datatype Outcome<T> = Resolved(value: T) | Rejected(message: string)

  datatype LoginResponse = LoginResponse(token: string, userId: string, name: string)

  const LoginFailed := "로그인에 실패했습니다."
  const SignupFailed := "회원가입에 실패했습니다."
  const ResetFailed := "비밀번호 재설정에 실패했습니다."

  /** `a || b` on strings. */
  function OrElse(a: string, b: string): string {
    if a != "" then a else b
  }

  /** The message thrown from inside the try block: JSON.parse's own SyntaxError message, or the
      `message` field of the parsed object, else the default. */
  function ThrownInTry(text: string, parse: string -> Parsed, default: string, syntaxMessage: string): string {
    match parse(text)
    case SyntaxError => syntaxMessage
    case JsonObject(m) => OrElse(if m.Some? then m.value else "", default)
  }

  /** The error a failed call rejects with. Every path through the try block throws, and the
      catch block replaces whatever was thrown, so the message is the body text when it is
      non-empty and the default otherwise, whatever the body parses to. */
  function FailureMessage(text: string, parse: string -> Parsed, default: string, syntaxMessage: string): (r: string)
    ensures text != "" ==> r == text
    ensures text == "" ==> r == default
  {
    OrElse(text, default)
  }

  /** A JSON body with a non-empty `message` field does not change the message: what the try
      block threw is discarded and the raw text is shown. */
  lemma JsonMessageIgnored(text: string, parse: string -> Parsed, default: string, syntaxMessage: string)
    requires text != "" && parse(text).JsonObject? && parse(text).message.Some?
    requires parse(text).message.value != "" && parse(text).message.value != text
    ensures FailureMessage(text, parse, default, syntaxMessage) != ThrownInTry(text, parse, default, syntaxMessage)
  {
  }

  /** login: a failed reply rejects with the failure message; a successful one resolves to the
      decoded body. */
  function Login(reply: Reply, parse: string -> Parsed, syntaxMessage: string, body: LoginResponse): (r: Outcome<LoginResponse>)
    ensures reply.ok ==> r == Resolved(body)
    ensures !reply.ok ==> r.Rejected? && r.message == OrElse(reply.text, LoginFailed)
  {
    if reply.ok then Resolved(body) else Rejected(FailureMessage(reply.text, parse, LoginFailed, syntaxMessage))
  }

  /** signup: like login, but a success resolves to the body text. */
  function Signup(reply: Reply, parse: string -> Parsed, syntaxMessage: string): (r: Outcome<string>)
    ensures reply.ok ==> r == Resolved(reply.text)
    ensures !reply.ok ==> r.Rejected? && r.message == OrElse(reply.text, SignupFailed)
  {
    if reply.ok then Resolved(reply.text) else Rejected(FailureMessage(reply.text, parse, SignupFailed, syntaxMessage))
  }

  /** resetPassword: like signup, with its own default. */
  function ResetPassword(reply: Reply, parse: string -> Parsed, syntaxMessage: string): (r: Outcome<string>)
    ensures reply.ok ==> r == Resolved(reply.text)
    ensures !reply.ok ==> r.Rejected? && r.message == OrElse(reply.text, ResetFailed)
  {
    if reply.ok then Resolved(reply.text) else Rejected(FailureMessage(reply.text, parse, ResetFailed, syntaxMessage))
  }

  /** A failed call never rejects with an empty message. */
  lemma FailureMessageNonEmpty(reply: Reply, parse: string -> Parsed, syntaxMessage: string, body: LoginResponse)
    requires !reply.ok
    ensures Login(reply, parse, syntaxMessage, body).message != ""
    ensures Signup(reply, parse, syntaxMessage).message != ""
    ensures ResetPassword(reply, parse, syntaxMessage).message != ""
  {
  }

  /** The browser's localStorage. */
  class LocalStorage {
    var items: map<string, string>

    constructor(items: map<string, string>)
      ensures this.items == items
    {
      this.items := items;
    }

    method RemoveItem(key: string)
      modifies this
      ensures items == old(items) - {key}
    {
      items := items - {key};
    }
  }

  const SessionKeys := {"token", "userId", "userName"}

  /** logout: the three session keys go, and every other key keeps its value. */
  method Logout(storage: LocalStorage)
    modifies storage
    ensures storage.items == old(storage.items) - SessionKeys
  {
    storage.RemoveItem("token");
    storage.RemoveItem("userId");
    storage.RemoveItem("userName");
  }
}
