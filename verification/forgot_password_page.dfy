/** The forgot-password page: one email field, and a reply handler that shows
    the same success text whatever the server answers. */
module ForgotPasswordPage {
  import opened Wrappers
  import opened Js
  import opened Validation
  import opened Ui
  import Api

  const INITIAL: Values := map["email" := ""]

  const SCHEMA: Schema := [
    Check("email", EmailFormat, "Invalid email address"),
    Check("email", Required, "Required")
  ]

  const SENT: string := "Password reset instructions sent to your email!"
  const SEND_FAILED: string := "Failed to send reset instructions"

  /** The email must be non-empty and look like an address. */
  lemma ForgotRules(values: Values, formats: Formats)
    requires "email" in values
    ensures IsValid(SCHEMA, values, formats) <==> values["email"] != "" && formats.isEmail(values["email"])
  {
    ValidIffAllPass(SCHEMA, values, formats);
    assert SCHEMA[0] in SCHEMA && SCHEMA[1] in SCHEMA;
  }

  /** The call made on submit carries the email exactly as typed. */
  function OnSubmit(values: Values, formats: Formats): (r: Option<Api.Call>)
    ensures r.Some? <==> IsValid(SCHEMA, values, formats)
    ensures r.Some? ==> r.value == Api.ForgotPassword(Field(values, "email"))
  {
    Submit(SCHEMA, values, formats, Api.ForgotPassword(Field(values, "email")))
  }

  /** Any 2xx reply shows the fixed success text; a failure shows the
      server's message or the fallback. */
  function OnReply(reply: Api.Settled): (r: Effect)
    ensures r.Toast? && (r.success <==> reply.Resolved?)
    ensures reply.Resolved? ==> r.text == SENT
    ensures reply.Rejected? ==> r.text == Api.FailureText(reply.failure, SEND_FAILED)
  {
    match reply
    case Resolved(_) => Toast(true, SENT)
    case Rejected(failure) => Toast(false, Api.FailureText(failure, SEND_FAILED))
  }

  /** The page tells two successful replies apart by nothing: whatever the
      body or status, the user sees the same toast. */
  lemma SuccessIgnoresReply(a: Api.Response, b: Api.Response)
    ensures OnReply(Api.Resolved(a)) == OnReply(Api.Resolved(b))
  {
  }
}
