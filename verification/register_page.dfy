/** The registration page: its schema and its submit handler. */
module RegisterPage {
  import opened Wrappers
  import opened Js
  import opened Validation
  import opened Ui
  import Api
  import Text

  const INITIAL: Values := map["name" := "", "email" := "", "password" := "", "confirmPassword" := ""]

  const MUST_MATCH: string := "Passwords must match"

  const SCHEMA: Schema := [
    Check("name", Required, "Required"),
    Check("email", EmailFormat, "Invalid email address"),
    Check("email", Required, "Required"),
    Check("password", MinLength(8), "Password must be at least 8 characters"),
    Check("password", Required, "Required"),
    Check("confirmPassword", SameAs("password"), MUST_MATCH),
    Check("confirmPassword", Required, "Required")
  ]

  const REGISTERED: string := "Registration successful! Please check your email to verify your account."
  const REGISTER_FAILED: string := "Registration failed"

  /** The confirmation fails with "Passwords must match" exactly when it is
      filled in and differs from the password; an empty confirmation shows
      only "Required". */
  lemma ConfirmMustMatch(values: Values, formats: Formats)
    requires "password" in values && "confirmPassword" in values
    ensures MUST_MATCH in FieldErrors(SCHEMA, values, formats, "confirmPassword")
        <==> values["confirmPassword"] != "" && values["confirmPassword"] != values["password"]
  {
    var s := SCHEMA;
    assert forall j :: 0 <= j < 5 ==> |s[j].field| != |s[5].field|;
    assert |s[6].message| != |s[5].message|;
    SoleMessageShownIffFails(s, 5, values, formats);
    assert Passes(s[5], values, formats)
       <==> values["confirmPassword"] == "" || values["confirmPassword"] == values["password"];
  }

  /** A valid form has a name, an email that passes the email predicate, a
      password of at least eight characters and a matching confirmation. */
  lemma RegisterRules(values: Values, formats: Formats)
    requires "name" in values && "email" in values && "password" in values && "confirmPassword" in values
    ensures IsValid(SCHEMA, values, formats) <==>
              && values["name"] != ""
              && values["email"] != "" && formats.isEmail(values["email"])
              && Text.Utf16Length(values["password"]) >= 8
              && values["confirmPassword"] == values["password"]
  {
    ValidIffAllPassInOrder(SCHEMA, values, formats);
    RegisterChecksInOrder(values, formats);
  }

  lemma RegisterChecksInOrder(values: Values, formats: Formats)
    requires "name" in values && "email" in values && "password" in values && "confirmPassword" in values
    ensures AllPass(SCHEMA, values, formats) <==>
              && values["name"] != ""
              && values["email"] != "" && formats.isEmail(values["email"])
              && Text.Utf16Length(values["password"]) >= 8
              && values["confirmPassword"] == values["password"]
  {
    var s := SCHEMA;
    assert Passes(s[0], values, formats) <==> values["name"] != "";
    assert Passes(s[1], values, formats) <==> values["email"] == "" || formats.isEmail(values["email"]);
    assert Passes(s[2], values, formats) <==> values["email"] != "";
    assert Passes(s[3], values, formats) <==> values["password"] == "" || Text.Utf16Length(values["password"]) >= 8;
    assert Passes(s[4], values, formats) <==> values["password"] != "";
    assert Passes(s[5], values, formats) <==> values["confirmPassword"] == "" || values["confirmPassword"] == values["password"];
    assert Passes(s[6], values, formats) <==> values["confirmPassword"] != "";
    assert AllPass(s[6..], values, formats) <==> Passes(s[6], values, formats);
    assert AllPass(s[5..], values, formats) <==> Passes(s[5], values, formats) && AllPass(s[6..], values, formats);
    assert AllPass(s[4..], values, formats) <==> Passes(s[4], values, formats) && AllPass(s[5..], values, formats);
    assert AllPass(s[3..], values, formats) <==> Passes(s[3], values, formats) && AllPass(s[4..], values, formats);
    assert AllPass(s[2..], values, formats) <==> Passes(s[2], values, formats) && AllPass(s[3..], values, formats);
    assert AllPass(s[1..], values, formats) <==> Passes(s[1], values, formats) && AllPass(s[2..], values, formats);
    assert AllPass(s, values, formats) <==> Passes(s[0], values, formats) && AllPass(s[1..], values, formats);
  }

  /** The register call made on submit: name, email and password, never the
      confirmation. */
  function OnSubmit(values: Values, formats: Formats): (r: Option<Api.Call>)
    ensures r.Some? <==> IsValid(SCHEMA, values, formats)
    ensures r.Some? ==> r.value == Api.Register(Field(values, "name"), Field(values, "email"), Field(values, "password"))
    ensures r.Some? ==> var body := Api.Endpoint(r.value).body;
              body.Json? && body.value.Obj? && body.value.props.Keys == {"name", "email", "password"}
  {
    Submit(SCHEMA, values, formats, Api.Register(Field(values, "name"), Field(values, "email"), Field(values, "password")))
  }

  /** Success shows the reply's message or a fixed text and goes to the
      sign-in page; failure shows the server's message or the fallback. */
  function OnReply(reply: Api.Settled): (r: seq<Effect>)
    ensures reply.Rejected? ==> r == [Toast(false, Api.FailureText(reply.failure, REGISTER_FAILED))]
    ensures reply.Resolved? && (reply.response.data.Undefined? || reply.response.data.Null?) ==>
              r == [Toast(false, REGISTER_FAILED)]
    ensures reply.Resolved? && !(reply.response.data.Undefined? || reply.response.data.Null?) ==>
              r == [Toast(true, ToText(Or(OptGet(reply.response.data, "message"), Str(REGISTERED)))), Navigate("/login")]
    ensures (exists e :: e in r && e.Navigate?) ==> reply.Resolved?
  {
    match reply
    case Rejected(failure) => [Toast(false, Api.FailureText(failure, REGISTER_FAILED))]
    case Resolved(response) =>
      match Get(response.data, "message")
      case Err(_) => [Toast(false, Api.FailureText(Api.ScriptError, REGISTER_FAILED))]
      case Ok(message) => [Toast(true, ToText(Or(message, Str(REGISTERED)))), Navigate("/login")]
  }

  /** The backend's register reply carries only a token, so the fixed
      success text is what the user sees. */
  lemma TokenReplyShowsFixedText(status: int, token: string)
    ensures OnReply(Api.Resolved(Api.Response(status, Obj(map["token" := Str(token)]))))[0] == Toast(true, REGISTERED)
  {
    assert "message" !in map["token" := Str(token)];
  }
}
