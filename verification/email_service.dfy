/** The email service: issuing the verification and password-reset tokens and
    building the links that carry them. The random token, the clock reading
    and what the mail sender does are parameters; the message bodies and the
    SMTP exchange are not modelled. Both operations save the token before
    anything is sent, so a failed send still leaves the token on the user. */
module EmailService {
  import opened Wrappers
  import opened Exceptions
  import opened Entities

  /** One hour, in milliseconds. */
  const TOKEN_LIFETIME_MS: int := 3600000

  const VERIFY_LINK_PREFIX: string := "http://66.42.51.94:8080/api/auth/verify?token="
  const RESET_LINK_PREFIX: string := "http://66.42.51.94/reset-password?token="

  const VERIFY_MESSAGING_FAILURE: string := "Failed to send verification email"
  const RESET_MESSAGING_FAILURE: string := "Failed to send password reset email. Please check your email configuration."
  const RESET_UNEXPECTED_FAILURE: string := "An unexpected error occurred while processing your request"

  /** What happened once the token was saved: the message went out, building
      it failed with a checked `MessagingException`, or the sender failed
      with an unchecked exception carrying `msg`. */
  datatype MailOutcome = Delivered | MessagingFailure | SendFailure(msg: string)

  /** The store after the call, the link the message carried and the
      exception the call ended with, if any. */
  datatype Sent = Sent(users: Users, link: string, thrown: Option<Exception>)

  /** The link is the prefix followed by exactly the token. */
  function Link(prefix: string, token: string): (r: string)
    ensures |r| == |prefix| + |token|
    ensures r[..|prefix|] == prefix && r[|prefix|..] == token
  {
    prefix + token
  }

  /** The token a link carries, read back the way a reader of the link would:
      whatever follows the prefix. */
  function TokenInLink(prefix: string, link: string): (r: Option<string>)
    ensures r.Some? <==> |prefix| <= |link| && link[..|prefix|] == prefix
    ensures r.Some? ==> link == prefix + r.value
  {
    if |prefix| <= |link| && link[..|prefix|] == prefix then Some(link[|prefix|..]) else None
  }

  /** Reading a link back gives exactly the token it was built with, so two
      different tokens never share a link. */
  lemma LinkCarriesToken(prefix: string, token: string)
    ensures TokenInLink(prefix, Link(prefix, token)) == Some(token)
  {
  }

  /** The user with a fresh verification token valid for one hour. */
  function WithVerificationToken(user: User, token: string, now: int): (u: User)
    ensures u.verificationToken == Some(token)
    ensures u.verificationTokenExpiry == Some(now + TOKEN_LIFETIME_MS)
    ensures u.(verificationToken := user.verificationToken, verificationTokenExpiry := user.verificationTokenExpiry) == user
  {
    user.(verificationToken := Some(token), verificationTokenExpiry := Some(now + TOKEN_LIFETIME_MS))
  }

  /** The user with a fresh reset token valid for one hour; any earlier reset
      token is overwritten. */
  function WithResetToken(user: User, token: string, now: int): (u: User)
    ensures u.resetPasswordToken == Some(token)
    ensures u.resetPasswordTokenExpiry == Some(now + TOKEN_LIFETIME_MS)
    ensures u.(resetPasswordToken := user.resetPasswordToken, resetPasswordTokenExpiry := user.resetPasswordTokenExpiry) == user
  {
    user.(resetPasswordToken := Some(token), resetPasswordTokenExpiry := Some(now + TOKEN_LIFETIME_MS))
  }

  /** `sendVerificationEmail`: the token is saved first; a checked messaging
      failure is rethrown as a runtime exception with a fixed text, an
      unchecked sender failure escapes as it is. */
  function SendVerificationEmail(users: Users, user: User, token: string, now: int, outcome: MailOutcome): (r: Sent)
    ensures r.users == Save(users, WithVerificationToken(user, token, now))
    ensures r.link == Link(VERIFY_LINK_PREFIX, token)
    ensures r.thrown.None? <==> outcome.Delivered?
    ensures outcome.MessagingFailure? ==> r.thrown == Some(Runtime(VERIFY_MESSAGING_FAILURE))
    ensures outcome.SendFailure? ==> r.thrown == Some(MailSend(outcome.msg))
  {
    var saved := Save(users, WithVerificationToken(user, token, now));
    var link := Link(VERIFY_LINK_PREFIX, token);
    match outcome
    case Delivered => Sent(saved, link, None)
    case MessagingFailure => Sent(saved, link, Some(Runtime(VERIFY_MESSAGING_FAILURE)))
    case SendFailure(msg) => Sent(saved, link, Some(MailSend(msg)))
  }

  /** `sendPasswordResetEmail`: the token is saved first; every failure after
      that is rethrown as a runtime exception, with one text for a messaging
      failure and another for anything else. */
  function SendPasswordResetEmail(users: Users, user: User, token: string, now: int, outcome: MailOutcome): (r: Sent)
    ensures r.users == Save(users, WithResetToken(user, token, now))
    ensures r.link == Link(RESET_LINK_PREFIX, token)
    ensures r.thrown.None? <==> outcome.Delivered?
    ensures outcome.MessagingFailure? ==> r.thrown == Some(Runtime(RESET_MESSAGING_FAILURE))
    ensures outcome.SendFailure? ==> r.thrown == Some(Runtime(RESET_UNEXPECTED_FAILURE))
  {
    var saved := Save(users, WithResetToken(user, token, now));
    var link := Link(RESET_LINK_PREFIX, token);
    match outcome
    case Delivered => Sent(saved, link, None)
    case MessagingFailure => Sent(saved, link, Some(Runtime(RESET_MESSAGING_FAILURE)))
    case SendFailure(_) => Sent(saved, link, Some(Runtime(RESET_UNEXPECTED_FAILURE)))
  }

  /** Whatever the mail sender does, the reset token ends up stored on the
      user: the store after a failed send equals the store after a delivered
      one. */
  lemma ResetTokenSurvivesMailFailure(users: Users, user: User, token: string, now: int, outcome: MailOutcome)
    ensures SendPasswordResetEmail(users, user, token, now, outcome).users
         == SendPasswordResetEmail(users, user, token, now, Delivered).users
    ensures var after := SendPasswordResetEmail(users, user, token, now, outcome).users;
            user.id in after && after[user.id].resetPasswordToken == Some(token)
  {
  }
}
