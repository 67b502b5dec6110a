/** The input guards of the authentication controller. A JSON request body
    is a map from key to text; a missing key and a JSON null are the same
    absent value there. A reply carries a status and the text under the
    body's "message" key, absent for an empty body. An exception that leaves
    a handler is returned as `Err`, for the global handler to map. */
module AuthController {
  import opened Wrappers
  import opened Exceptions
  import opened Entities
  import Text
  import Email = EmailService
  import AuthService

  datatype Reply = Reply(status: Status, message: Option<string>)

  const EMAIL_REQUIRED: string := "Email is required"
  const RESET_REQUESTED: string := "If an account exists with this email, you will receive password reset instructions."
  const RESET_REQUEST_FAILED: string := "Failed to process password reset request. Please try again later."
  const EMAIL_VERIFIED: string := "Email verified successfully"

  /** A value the controller treats as missing: absent, or only whitespace. */
  predicate Missing(body: map<string, string>, key: string) {
    key !in body || Text.IsBlank(body[key])
  }

  /** `forgotPassword`: a missing or blank email is refused without calling
      the service; otherwise the trimmed email is passed on, the same reply
      is given whether or not an account exists, and any exception becomes a
      500 with a fixed text. */
  function ForgotPassword(users: Users, body: map<string, string>, token: string, now: int,
                          outcome: Email.MailOutcome): (r: (Users, Reply))
    ensures Missing(body, "email") ==> r == (users, Reply(BadRequest, Some(EMAIL_REQUIRED)))
    ensures !Missing(body, "email") ==>
              var call := AuthService.InitiatePasswordReset(users, Text.Trim(body["email"]), token, now, outcome);
              && r.0 == call.users
              && (call.thrown.None? ==> r.1 == Reply(HttpOk, Some(RESET_REQUESTED)))
              && (call.thrown.Some? ==> r.1 == Reply(InternalServerError, Some(RESET_REQUEST_FAILED)))
  {
    if Missing(body, "email") then (users, Reply(BadRequest, Some(EMAIL_REQUIRED)))
    else
      var call := AuthService.InitiatePasswordReset(users, Text.Trim(body["email"]), token, now, outcome);
      if call.thrown.Some? then (call.users, Reply(InternalServerError, Some(RESET_REQUEST_FAILED)))
      else (call.users, Reply(HttpOk, Some(RESET_REQUESTED)))
  }

  /** The reply never tells an unknown address from a known one whose mail
      went out: both get 200 with the same text. */
  lemma ForgotPasswordHidesAccounts(users: Users, known: string, unknown: string, token: string, now: int)
    requires !Text.IsBlank(known) && !Text.IsBlank(unknown)
    requires FindByEmail(users, Text.Trim(known)).OneRow?
    requires forall id :: id in users ==> users[id].email != Text.Trim(unknown)
    ensures ForgotPassword(users, map["email" := known], token, now, Email.Delivered).1
         == ForgotPassword(users, map["email" := unknown], token, now, Email.Delivered).1
         == Reply(HttpOk, Some(RESET_REQUESTED))
  {
  }

  /** When the mail for a known address does not go out, the known address
      gets 500 while an unknown one still gets 200, so in this synchronous
      model the reply reveals the account. */
  lemma MailFailureRevealsAccount(users: Users, known: string, unknown: string, token: string, now: int,
                                  outcome: Email.MailOutcome)
    requires !Text.IsBlank(known) && !Text.IsBlank(unknown) && !outcome.Delivered?
    requires FindByEmail(users, Text.Trim(known)).OneRow?
    requires forall id :: id in users ==> users[id].email != Text.Trim(unknown)
    ensures ForgotPassword(users, map["email" := known], token, now, outcome).1 == Reply(InternalServerError, Some(RESET_REQUEST_FAILED))
    ensures ForgotPassword(users, map["email" := unknown], token, now, outcome).1 == Reply(HttpOk, Some(RESET_REQUESTED))
  {
  }

  /** Surrounding whitespace on the email makes no difference. */
  lemma ForgotPasswordTrimsEmail(users: Users, email: string, token: string, now: int, outcome: Email.MailOutcome)
    requires !Text.IsBlank(email)
    ensures ForgotPassword(users, map["email" := " " + email + "\t"], token, now, outcome)
         == ForgotPassword(users, map["email" := email], token, now, outcome)
  {
    Text.TrimPad(email);
  }

  /** `resetPassword`: the token is checked before the new password, both
      must be present and non-blank, nothing else is asked of the password;
      the service gets the trimmed token and the password as sent, and
      success is a 200 with an empty body. */
  function ResetPassword(users: Users, body: map<string, string>, encoder: PasswordEncoder, now: int): (r: Result<(Users, Reply), Exception>)
    ensures Missing(body, "token") ==> r == Err(IllegalArgument("Token is required"))
    ensures !Missing(body, "token") && Missing(body, "newPassword") ==> r == Err(IllegalArgument("New password is required"))
    ensures !Missing(body, "token") && !Missing(body, "newPassword") ==>
              var call := AuthService.ResetPassword(users, Text.Trim(body["token"]), body["newPassword"], encoder, now);
              && (call.Err? ==> r == Err(call.error))
              && (call.Ok? ==> r == Ok((call.value, Reply(HttpOk, None))))
  {
    if Missing(body, "token") then Err(IllegalArgument("Token is required"))
    else if Missing(body, "newPassword") then Err(IllegalArgument("New password is required"))
    else
      var after :- AuthService.ResetPassword(users, Text.Trim(body["token"]), body["newPassword"], encoder, now);
      Ok((after, Reply(HttpOk, None)))
  }

  /** Any non-blank new password is accepted with a valid token: a single
      character is enough, and it is stored encoded exactly as sent,
      surrounding whitespace included. */
  lemma AnyNonBlankPasswordAccepted(users: Users, id: UserId, token: string, password: string,
                                    encoder: PasswordEncoder, now: int)
    requires KeyedById(users) && id in users
    requires users[id].resetPasswordToken == Some(token) && !Text.IsBlank(token) && Text.Trim(token) == token
    requires AuthService.OnlyHolder(users, id, token)
    requires users[id].resetPasswordTokenExpiry.Some? && now <= users[id].resetPasswordTokenExpiry.value
    requires !Text.IsBlank(password)
    ensures var r := ResetPassword(users, map["token" := token, "newPassword" := password], encoder, now);
            && r.Ok? && r.value.1 == Reply(HttpOk, None)
            && id in r.value.0 && r.value.0[id].password == encoder.encode(password)
  {
    ServiceAcceptsHolder(users, id, token, password, encoder, now);
    PassesTokenAndPassword(users, token, password, encoder, now);
  }

  /** With both values present and the token already trimmed, the endpoint
      answers exactly as the service does for that token and password. */
  lemma PassesTokenAndPassword(users: Users, token: string, password: string, encoder: PasswordEncoder, now: int)
    requires !Text.IsBlank(token) && Text.Trim(token) == token
    requires !Text.IsBlank(password)
    ensures var r := ResetPassword(users, map["token" := token, "newPassword" := password], encoder, now);
            var call := AuthService.ResetPassword(users, token, password, encoder, now);
            && (call.Ok? ==> r == Ok((call.value, Reply(HttpOk, None))))
            && (call.Err? ==> r == Err(call.error))
  {
    var body := map["token" := token, "newPassword" := password];
    assert body["token"] == token && body["newPassword"] == password;
    assert !Missing(body, "token") && !Missing(body, "newPassword");
  }

  lemma ServiceAcceptsHolder(users: Users, id: UserId, token: string, password: string,
                             encoder: PasswordEncoder, now: int)
    requires KeyedById(users) && id in users
    requires users[id].resetPasswordToken == Some(token)
    requires AuthService.OnlyHolder(users, id, token)
    requires users[id].resetPasswordTokenExpiry.Some? && now <= users[id].resetPasswordTokenExpiry.value
    ensures AuthService.ResetPassword(users, token, password, encoder, now).Ok?
    ensures id in AuthService.ResetPassword(users, token, password, encoder, now).value
    ensures AuthService.ResetPassword(users, token, password, encoder, now).value[id].password == encoder.encode(password)
  {
    SoleHolderFound(users, id, token);
  }

  /** `verifyEmail`: the service's outcome for the trimmed token is a
      parameter, since the service operation it calls is not part of this
      model. Success is a 200 with a fixed text; a failure is a 400 carrying
      the exception's message, except that a failure without a message
      cannot be put in the reply map and escapes as a null-pointer error. */
  function VerifyEmail(token: string, verify: string -> Option<Exception>): (r: Result<Reply, Exception>)
    ensures verify(Text.Trim(token)).None? ==> r == Ok(Reply(HttpOk, Some(EMAIL_VERIFIED)))
    ensures verify(Text.Trim(token)).Some? ==>
              var ex := verify(Text.Trim(token)).value;
              && (ex.Message().Some? ==> r == Ok(Reply(BadRequest, ex.Message())))
              && (ex.Message().None? ==> r == Err(NullPointer(None)))
    ensures r.Ok? ==> r.value.message.Some?
  {
    match verify(Text.Trim(token))
    case None => Ok(Reply(HttpOk, Some(EMAIL_VERIFIED)))
    case Some(ex) =>
      match ex.Message()
      case Some(m) => Ok(Reply(BadRequest, Some(m)))
      case None => Err(NullPointer(None))
  }
}
