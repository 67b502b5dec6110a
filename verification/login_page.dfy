/** The sign-in page: its schema, the call its submit handler makes, and what
    the handler does with the reply. */
module LoginPage {
  import opened Wrappers
  import opened Js
  import opened Validation
  import opened Ui
  import Api
  import Session

  const INITIAL: Values := map["email" := "", "password" := ""]

  const SCHEMA: Schema := [
    Check("email", EmailFormat, "Invalid email address"),
    Check("email", Required, "Required"),
    Check("password", Required, "Required")
  ]

  const LOGIN_FAILED: string := "Login failed"
  const AFTER_LOGIN: string := "/settings/profile"

  /** The email must be non-empty and look like an address; the password
      must only be non-empty. */
  lemma LoginRules(values: Values, formats: Formats)
    requires "email" in values && "password" in values
    ensures IsValid(SCHEMA, values, formats) <==>
              values["email"] != "" && formats.isEmail(values["email"]) && values["password"] != ""
  {
    ValidIffAllPass(SCHEMA, values, formats);
    assert SCHEMA[0] in SCHEMA && SCHEMA[1] in SCHEMA && SCHEMA[2] in SCHEMA;
  }

  /** The login call made on submit, with exactly the two form values. */
  function OnSubmit(values: Values, formats: Formats): (r: Option<Api.Call>)
    ensures r.Some? <==> IsValid(SCHEMA, values, formats)
    ensures r.Some? ==> r.value == Api.Login(Field(values, "email"), Field(values, "password"))
  {
    Submit(SCHEMA, values, formats, Api.Login(Field(values, "email"), Field(values, "password")))
  }

  /** The reply handler: on success `response.data.token` is stored under
      "token" and the user is taken to the profile settings; on any failure,
      including a reply body that cannot be read, nothing is stored and the
      server's message or the fallback is shown. */
  function OnReply(storage: Session.Storage, reply: Api.Settled): (r: (Session.Storage, seq<Effect>))
    ensures reply.Rejected? ==> r == (storage, [Toast(false, Api.FailureText(reply.failure, LOGIN_FAILED))])
    ensures reply.Resolved? && (reply.response.data.Undefined? || reply.response.data.Null?) ==>
              r == (storage, [Toast(false, LOGIN_FAILED)])
    ensures reply.Resolved? && !(reply.response.data.Undefined? || reply.response.data.Null?) ==>
              && r.0 == Session.SetItem(storage, Session.TOKEN_KEY, OptGet(reply.response.data, "token"))
              && r.1 == [Navigate(AFTER_LOGIN), Toast(true, "Login successful!")]
  {
    match reply
    case Rejected(failure) => (storage, [Toast(false, Api.FailureText(failure, LOGIN_FAILED))])
    case Resolved(response) =>
      match Get(response.data, "token")
      case Err(_) => (storage, [Toast(false, Api.FailureText(Api.ScriptError, LOGIN_FAILED))])
      case Ok(token) => (Session.SetItem(storage, Session.TOKEN_KEY, token), [Navigate(AFTER_LOGIN), Toast(true, "Login successful!")])
  }

  /** After a successful sign-in whose reply carries a token, every later
      call presents that token to the server. */
  lemma SignedInCallsCarryToken(storage: Session.Storage, status: int, token: string, next: Api.Call)
    requires token != ""
    ensures var after := OnReply(storage, Api.Resolved(Api.Response(status, Obj(map["token" := Str(token)])))).0;
            var h := Api.Prepare(next, after).headers;
            Api.AUTHORIZATION in h && Api.BearerCredentials(h[Api.AUTHORIZATION]) == Some(token)
  {
    var after := OnReply(storage, Api.Resolved(Api.Response(status, Obj(map["token" := Str(token)])))).0;
    assert after[Session.TOKEN_KEY] == token;
    Api.StoredTokenReachesServer(next, after);
  }

  /** A success reply without a token stores the text "undefined", which
      later calls then present as their bearer token. */
  lemma MissingTokenStoredAsText(storage: Session.Storage, status: int)
    ensures OnReply(storage, Api.Resolved(Api.Response(status, Obj(map[])))).0
         == storage[Session.TOKEN_KEY := "undefined"]
  {
  }
}
