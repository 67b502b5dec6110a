/** The authentication service: registration, sign-in, and the two halves of
    the password-reset flow. The email service is called synchronously, as
    its try/catch blocks are written. The JWT generator, the authentication
    manager's verdict, the fresh row id, the random token and the clock are
    parameters. */
module AuthService {
  import opened Wrappers
  import opened Exceptions
  import opened Entities
  import Email = EmailService
  import ExceptionHandler

  /** The message the JVM's helpful null-pointer diagnostics (on by default
      since Java 15) give the error raised by unboxing a null expiry in
      `resetPassword`. */
  const NULL_EXPIRY_MESSAGE: string :=
    "Cannot invoke \"java.lang.Long.longValue()\" because the return value of "
    + "\"com.bluecyber.MyFolio_BE.entity.User.getResetPasswordTokenExpiry()\" is null"

  datatype RegisterRequest = RegisterRequest(name: string, email: string, password: string)

  /** The store after the call and the exception the call ended with. */
  datatype Outcome = Outcome(users: Users, thrown: Option<Exception>)

  /** The user row `register` builds: name, email and encoded password, with
      every other field empty. */
  function NewUser(id: UserId, req: RegisterRequest, encoder: PasswordEncoder): (u: User)
    ensures u.id == id && u.name == Some(req.name) && u.email == req.email
    ensures u.password == encoder.encode(req.password)
    ensures u.jobTitle.None? && u.bio.None? && u.profileImage.None?
    ensures u.resetPasswordToken.None? && u.resetPasswordTokenExpiry.None?
  {
    User(id, Some(req.name), req.email, encoder.encode(req.password), None, None, None, None, None, None, None)
  }

  /** `register`: a taken email is refused before anything is saved;
      otherwise the new row is saved, a verification email is attempted and
      its failure ignored, and a token for the new user is returned. */
  function Register(users: Users, req: RegisterRequest, encoder: PasswordEncoder, newId: UserId,
                    verifyToken: string, now: int, outcome: Email.MailOutcome, jwt: User -> string): (r: Result<(Users, string), Exception>)
    requires newId !in users
    ensures ExistsByEmail(users, req.email) <==> r.Err?
    ensures r.Err? ==> r.error == EmailAlreadyExists("Email already exists")
    ensures r.Ok? ==> var (after, _) := r.value;
              && after.Keys == users.Keys + {newId}
              && (forall id :: id in users ==> after[id] == users[id])
              && after[newId].name == Some(req.name) && after[newId].email == req.email
              && after[newId].password == encoder.encode(req.password)
              && after[newId].verificationToken == Some(verifyToken)
              && after[newId].verificationTokenExpiry == Some(now + Email.TOKEN_LIFETIME_MS)
    ensures r.Ok? ==> r.value.1 == jwt(r.value.0[newId])
  {
    if ExistsByEmail(users, req.email) then Err(EmailAlreadyExists("Email already exists"))
    else
      var user := NewUser(newId, req, encoder);
      var sent := Email.SendVerificationEmail(Save(users, user), user, verifyToken, now, outcome);
      var issued := Email.WithVerificationToken(user, verifyToken, now);
      Ok((sent.users, jwt(issued)))
  }

  /** Registration succeeds the same way whatever the mail sender does. */
  lemma RegisterIgnoresMailFailure(users: Users, req: RegisterRequest, encoder: PasswordEncoder, newId: UserId,
                                   verifyToken: string, now: int, outcome: Email.MailOutcome, jwt: User -> string)
    requires newId !in users
    ensures Register(users, req, encoder, newId, verifyToken, now, outcome, jwt)
         == Register(users, req, encoder, newId, verifyToken, now, Email.Delivered, jwt)
  {
  }

  /** The duplicate check keeps emails unique across the store. */
  lemma RegisterKeepsEmailsUnique(users: Users, req: RegisterRequest, encoder: PasswordEncoder, newId: UserId,
                                  verifyToken: string, now: int, outcome: Email.MailOutcome, jwt: User -> string)
    requires newId !in users && EmailsUnique(users)
    requires Register(users, req, encoder, newId, verifyToken, now, outcome, jwt).Ok?
    ensures EmailsUnique(Register(users, req, encoder, newId, verifyToken, now, outcome, jwt).value.0)
  {
    assert !ExistsByEmail(users, req.email);
  }

  /** `authenticate`: the authentication manager's verdict first (an
      exception from it propagates), then the lookup by email. */
  function Authenticate(users: Users, email: string, verdict: Option<Exception>, jwt: User -> string): (r: Result<string, Exception>)
    ensures verdict.Some? ==> r == Err(verdict.value)
    ensures verdict.None? && (forall id :: id in users ==> users[id].email != email) ==>
              r == Err(ResourceNotFound("User not found"))
    ensures r.Ok? ==> verdict.None? && exists id :: id in users && users[id].email == email && r.value == jwt(users[id])
    ensures verdict.None? && FindByEmail(users, email).OneRow? ==> r == Ok(jwt(users[FindByEmail(users, email).key]))
    ensures verdict.None? && FindByEmail(users, email).ManyRows? ==> r.Err? && r.error.NonUniqueResult?
  {
    if verdict.Some? then Err(verdict.value)
    else
      match FindByEmail(users, email)
      case NoRow => Err(ResourceNotFound("User not found"))
      case ManyRows => Err(NonUniqueResult("query did not return a unique result"))
      case OneRow(id) => Ok(jwt(users[id]))
  }

  /** `initiatePasswordReset`: an unknown email ends normally with nothing
      changed, so callers cannot tell whether an account exists; a known
      email gets a fresh reset token, and a failed send is rethrown with a
      fixed text while the saved token stays. */
  function InitiatePasswordReset(users: Users, email: string, token: string, now: int, outcome: Email.MailOutcome): (r: Outcome)
    ensures (forall id :: id in users ==> users[id].email != email) ==> r == Outcome(users, None)
    ensures FindByEmail(users, email).OneRow? ==>
              var user := users[FindByEmail(users, email).key];
              && r.users == Save(users, Email.WithResetToken(user, token, now))
              && (r.thrown.None? <==> outcome.Delivered?)
              && (r.thrown.Some? ==> r.thrown == Some(Runtime(Email.RESET_MESSAGING_FAILURE)))
  {
    match FindByEmail(users, email)
    case NoRow => Outcome(users, None)
    case ManyRows => Outcome(users, Some(NonUniqueResult("query did not return a unique result")))
    case OneRow(id) =>
      var sent := Email.SendPasswordResetEmail(users, users[id], token, now, outcome);
      if sent.thrown.Some? then Outcome(sent.users, Some(Runtime(Email.RESET_MESSAGING_FAILURE)))
      else Outcome(sent.users, None)
  }

  /** `resetPassword`: an unknown token is refused, a token whose expiry lies
      before `now` is refused, and otherwise the new password is stored
      encoded and the token and its expiry are cleared. A row holding a token
      but no expiry fails unboxing the null expiry, with the message the JVM
      builds for that dereference. */
  function ResetPassword(users: Users, token: string, newPassword: string, encoder: PasswordEncoder, now: int): (r: Result<Users, Exception>)
    ensures (forall id :: id in users ==> users[id].resetPasswordToken != Some(token)) ==>
              r == Err(InvalidToken("Invalid or expired token"))
    ensures FindByResetToken(users, token).OneRow? ==>
              var u := users[FindByResetToken(users, token).key];
              && (u.resetPasswordTokenExpiry.None? ==> r == Err(NullPointer(Some(NULL_EXPIRY_MESSAGE))))
              && (u.resetPasswordTokenExpiry.Some? && u.resetPasswordTokenExpiry.value < now ==>
                    r == Err(InvalidToken("Token has expired")))
              && (u.resetPasswordTokenExpiry.Some? && now <= u.resetPasswordTokenExpiry.value ==>
                    r == Ok(Save(users, u.(password := encoder.encode(newPassword),
                                           resetPasswordToken := None, resetPasswordTokenExpiry := None))))
  {
    match FindByResetToken(users, token)
    case NoRow => Err(InvalidToken("Invalid or expired token"))
    case ManyRows => Err(NonUniqueResult("query did not return a unique result"))
    case OneRow(id) =>
      var u := users[id];
      match u.resetPasswordTokenExpiry
      case None => Err(NullPointer(Some(NULL_EXPIRY_MESSAGE)))
      case Some(expiry) =>
        if expiry < now then Err(InvalidToken("Token has expired"))
        else Ok(Save(users, u.(password := encoder.encode(newPassword),
                               resetPasswordToken := None, resetPasswordTokenExpiry := None)))
  }

  /** A reset token held without an expiry reaches the client through the
      catch-all handler as a 500 whose debug message is the JVM's text naming
      the null expiry. */
  lemma NullExpiryReportedWithDetail(users: Users, token: string, newPassword: string, encoder: PasswordEncoder,
                                     now: int, render: map<string, string> -> string)
    requires FindByResetToken(users, token).OneRow?
    requires users[FindByResetToken(users, token).key].resetPasswordTokenExpiry.None?
    ensures ResetPassword(users, token, newPassword, encoder, now).Err?
    ensures var reply := ExceptionHandler.Handle(ResetPassword(users, token, newPassword, encoder, now).error, now, render);
            && reply.status == InternalServerError
            && reply.body.debugMessage == Some(NULL_EXPIRY_MESSAGE)
  {
  }

  /** No user other than `id` holds reset token `token`. */
  predicate OnlyHolder(users: Users, id: UserId, token: string) {
    forall k :: k in users && k != id ==> users[k].resetPasswordToken != Some(token)
  }

  /** A token issued at `issuedAt` and used at `now` works exactly when at
      most one hour has passed, the boundary instant included, and then the
      password becomes the encoded new one. */
  lemma {:induction false} IssuedTokenValidForOneHour(users: Users, id: UserId, token: string, issuedAt: int,
                                    outcome: Email.MailOutcome, newPassword: string, encoder: PasswordEncoder, now: int)
    requires KeyedById(users) && id in users && OnlyHolder(users, id, token)
    ensures var after := Email.SendPasswordResetEmail(users, users[id], token, issuedAt, outcome).users;
            && (ResetPassword(after, token, newPassword, encoder, now).Ok? <==> now <= issuedAt + Email.TOKEN_LIFETIME_MS)
            && (now > issuedAt + Email.TOKEN_LIFETIME_MS ==>
                  ResetPassword(after, token, newPassword, encoder, now) == Err(InvalidToken("Token has expired")))
            && (ResetPassword(after, token, newPassword, encoder, now).Ok? ==>
                  ResetPassword(after, token, newPassword, encoder, now).value[id].password == encoder.encode(newPassword))
  {
    var after := Email.SendPasswordResetEmail(users, users[id], token, issuedAt, outcome).users;
    assert after[id].resetPasswordToken == Some(token);
    assert OnlyHolder(after, id, token);
    SoleHolderFound(after, id, token);
  }

  /** A reset token works once: after a successful reset the same token is
      unknown. */
  lemma {:induction false} TokenWorksOnce(users: Users, token: string, p1: string, p2: string, encoder: PasswordEncoder, now: int, later: int)
    requires KeyedById(users)
    requires ResetPassword(users, token, p1, encoder, now).Ok?
    ensures ResetPassword(ResetPassword(users, token, p1, encoder, now).value, token, p2, encoder, later)
         == Err(InvalidToken("Invalid or expired token"))
  {
    var id := FindByResetToken(users, token).key;
    var after := ResetPassword(users, token, p1, encoder, now).value;
    forall k | k in after
      ensures after[k].resetPasswordToken != Some(token)
    {
      if k != id {
        assert after[k] == users[k];
      }
    }
  }

  /** Issuing a new reset token to a user makes the previous one useless:
      only the latest issued token can be used. */
  lemma {:induction false} OnlyLatestTokenWorks(users: Users, id: UserId, previous: string, latest: string, issuedAt: int,
                                                outcome: Email.MailOutcome, newPassword: string, encoder: PasswordEncoder, now: int)
    requires KeyedById(users) && id in users && OnlyHolder(users, id, previous) && previous != latest
    ensures var after := Email.SendPasswordResetEmail(users, users[id], latest, issuedAt, outcome).users;
            ResetPassword(after, previous, newPassword, encoder, now) == Err(InvalidToken("Invalid or expired token"))
  {
    var after := Email.SendPasswordResetEmail(users, users[id], latest, issuedAt, outcome).users;
    forall k | k in after
      ensures after[k].resetPasswordToken != Some(previous)
    {
      if k != id {
        assert after[k] == users[k];
      }
    }
  }
}
