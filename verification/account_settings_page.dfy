/** The account settings page: the change-password form, its busy flag, and
    the reply handler. */
module AccountSettingsPage {
  import opened Wrappers
  import opened Js
  import opened Validation
  import opened Ui
  import opened Entities
  import opened Exceptions
  import Api
  import Text
  import UserService

  const INITIAL: Values := map["currentPassword" := "", "newPassword" := "", "confirmPassword" := ""]

  const SCHEMA: Schema := [
    Check("currentPassword", Required, "Current password is required"),
    Check("newPassword", MinLength(8), "Password must be at least 8 characters"),
    Check("newPassword", Required, "New password is required"),
    Check("confirmPassword", SameAs("newPassword"), "Passwords must match"),
    Check("confirmPassword", Required, "Please confirm your password")
  ]

  const UPDATED: string := "Password updated successfully"
  const UPDATE_FAILED: string := "Failed to update password"

  /** A current password, a new one of at least eight characters, and the
      same new password again. */
  lemma AccountRules(values: Values, formats: Formats)
    requires "currentPassword" in values && "newPassword" in values && "confirmPassword" in values
    ensures IsValid(SCHEMA, values, formats) <==>
              && values["currentPassword"] != ""
              && Text.Utf16Length(values["newPassword"]) >= 8
              && values["confirmPassword"] == values["newPassword"]
  {
    ValidIffAllPassInOrder(SCHEMA, values, formats);
    AccountChecksInOrder(values, formats);
  }

  lemma AccountChecksInOrder(values: Values, formats: Formats)
    requires "currentPassword" in values && "newPassword" in values && "confirmPassword" in values
    ensures AllPass(SCHEMA, values, formats) <==>
              && values["currentPassword"] != ""
              && Text.Utf16Length(values["newPassword"]) >= 8
              && values["confirmPassword"] == values["newPassword"]
  {
    var s := SCHEMA;
    assert Passes(s[0], values, formats) <==> values["currentPassword"] != "";
    assert Passes(s[1], values, formats) <==> values["newPassword"] == "" || Text.Utf16Length(values["newPassword"]) >= 8;
    assert Passes(s[2], values, formats) <==> values["newPassword"] != "";
    assert Passes(s[3], values, formats) <==> values["confirmPassword"] == "" || values["confirmPassword"] == values["newPassword"];
    assert Passes(s[4], values, formats) <==> values["confirmPassword"] != "";
    assert AllPass(s[4..], values, formats) <==> Passes(s[4], values, formats);
    assert AllPass(s[3..], values, formats) <==> Passes(s[3], values, formats) && AllPass(s[4..], values, formats);
    assert AllPass(s[2..], values, formats) <==> Passes(s[2], values, formats) && AllPass(s[3..], values, formats);
    assert AllPass(s[1..], values, formats) <==> Passes(s[1], values, formats) && AllPass(s[2..], values, formats);
    assert AllPass(s, values, formats) <==> Passes(s[0], values, formats) && AllPass(s[1..], values, formats);
  }

  datatype State = State(loading: bool, form: Form)

  function Initial(): (st: State)
    ensures !st.loading && st.form.values == INITIAL && !Dirty(st.form)
  {
    State(false, Start(INITIAL))
  }

  /** `handleSubmit`: a valid form marks the page busy and sends the whole
      values object; an invalid one does nothing. */
  function OnSubmit(st: State, formats: Formats): (r: (State, Option<Api.Call>))
    ensures r.1.Some? <==> IsValid(SCHEMA, st.form.values, formats)
    ensures r.1.Some? ==> r.0 == st.(loading := true) && r.1.value == Api.ChangePassword(ValuesObject(st.form.values))
    ensures r.1.None? ==> r.0 == st
  {
    match Submit(SCHEMA, st.form.values, formats, Api.ChangePassword(ValuesObject(st.form.values)))
    case Some(call) => (st.(loading := true), Some(call))
    case None => (st, None)
  }

  /** Either way the page stops being busy; success empties the form,
      failure keeps what was typed. */
  function OnReply(st: State, reply: Api.Settled): (r: (State, Effect))
    ensures !r.0.loading
    ensures reply.Resolved? ==> r.0.form == Reset(st.form) && r.1 == Toast(true, UPDATED)
    ensures reply.Rejected? ==> r.0.form == st.form && r.1 == Toast(false, Api.FailureText(reply.failure, UPDATE_FAILED))
  {
    match reply
    case Resolved(_) => (State(false, Reset(st.form)), Toast(true, UPDATED))
    case Rejected(failure) => (State(false, st.form), Toast(false, Api.FailureText(failure, UPDATE_FAILED)))
  }

  /** After a password change goes through, the button stays disabled
      until the user types again; after a failure it is enabled again
      exactly when it was before the submit. */
  lemma SubmitButtonAfterReply(st: State, reply: Api.Settled, formats: Formats)
    ensures reply.Resolved? ==> SubmitDisabled(OnReply(st, reply).0.loading, OnReply(st, reply).0.form, SCHEMA, formats)
    ensures reply.Rejected? ==>
              (SubmitDisabled(OnReply(st, reply).0.loading, OnReply(st, reply).0.form, SCHEMA, formats)
               <==> SubmitDisabled(false, st.form, SCHEMA, formats))
  {
    CleanFormCannotSubmit(false, st.form, SCHEMA, formats);
  }

  /** How the server binds the submitted values. */
  function RequestOf(values: Values): (req: UserService.ChangePasswordRequest)
    requires "currentPassword" in values && "newPassword" in values && "confirmPassword" in values
    ensures req.newPassword == values["newPassword"] && req.confirmPassword == values["confirmPassword"]
    ensures req.currentPassword == values["currentPassword"]
  {
    UserService.ChangePasswordRequest(values["currentPassword"], values["newPassword"], values["confirmPassword"])
  }

  /** A form the page lets through is never refused by the server for a
      mismatched confirmation: the server answers with the stored user's
      password check or success. */
  lemma ValidFormPassesConfirmation(users: Users, principal: string, values: Values, formats: Formats,
                                    encoder: PasswordEncoder)
    requires "currentPassword" in values && "newPassword" in values && "confirmPassword" in values
    requires IsValid(SCHEMA, values, formats)
    ensures UserService.ChangePassword(users, principal, RequestOf(values), encoder)
         != Fail(BadRequest, "New password and confirmation do not match")
  {
    AccountRules(values, formats);
    var r := UserService.ChangePassword(users, principal, RequestOf(values), encoder);
    if UserService.GetCurrentUser(users, principal).Ok? {
      var user := UserService.GetCurrentUser(users, principal).value;
      if encoder.matches(values["currentPassword"], user.password) {
        assert r.Ok?;
      } else {
        assert r == Fail(BadRequest, "Current password is incorrect");
      }
    }
  }
}
