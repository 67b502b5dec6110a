/** The reset-password page: the token from the link, a password with five
    requirements shown as a checklist, and the reply handler. */
module ResetPasswordPage {
  import opened Wrappers
  import opened Js
  import opened Validation
  import opened Ui
  import Api
  import Text
  import AuthController

  const INITIAL: Values := map["password" := "", "confirmPassword" := ""]

  const SCHEMA: Schema := [
    Check("password", MinLength(8), "Must be at least 8 characters"),
    Check("password", Matches(Lowercase), "Must contain at least one lowercase character"),
    Check("password", Matches(Uppercase), "Must contain at least one uppercase character"),
    Check("password", Matches(Digit), "Must contain at least one number"),
    Check("password", Matches(NonAlphanumeric), "Must contain at least one special character"),
    Check("password", Required, "Required"),
    Check("confirmPassword", SameAs("password"), "Passwords must match"),
    Check("confirmPassword", Required, "Required")
  ]

  const RESET_DONE: string := "Password reset successful!"
  const RESET_FAILED: string := "Failed to reset password"
  const REQUEST_NEW_LINK: string := "/forgot-password"

  /** What the password field demands of its text. */
  predicate StrongPassword(p: string) {
    Text.Utf16Length(p) >= 8 && Contains(p, Lowercase) && Contains(p, Uppercase) && Contains(p, Digit) && Contains(p, NonAlphanumeric)
  }

  /** The form is valid exactly when the password is strong and the
      confirmation repeats it. */
  lemma ResetRules(values: Values, formats: Formats)
    requires "password" in values && "confirmPassword" in values
    ensures IsValid(SCHEMA, values, formats) <==>
              StrongPassword(values["password"]) && values["confirmPassword"] == values["password"]
  {
    ValidIffAllPassInOrder(SCHEMA, values, formats);
    ResetChecksInOrder(values, formats);
  }

  lemma ResetChecksInOrder(values: Values, formats: Formats)
    requires "password" in values && "confirmPassword" in values
    ensures AllPass(SCHEMA, values, formats) <==>
              StrongPassword(values["password"]) && values["confirmPassword"] == values["password"]
  {
    var s := SCHEMA;
    var p := values["password"];
    ConfirmChecksInOrder(values, formats);
    assert Passes(s[0], values, formats) <==> p == "" || Text.Utf16Length(p) >= 8;
    assert Passes(s[1], values, formats) <==> p == "" || Contains(p, Lowercase);
    assert Passes(s[2], values, formats) <==> p == "" || Contains(p, Uppercase);
    assert Passes(s[3], values, formats) <==> p == "" || Contains(p, Digit);
    assert Passes(s[4], values, formats) <==> p == "" || Contains(p, NonAlphanumeric);
    assert AllPass(s[4..], values, formats) <==> Passes(s[4], values, formats) && AllPass(s[5..], values, formats);
    assert AllPass(s[3..], values, formats) <==> Passes(s[3], values, formats) && AllPass(s[4..], values, formats);
    assert AllPass(s[2..], values, formats) <==> Passes(s[2], values, formats) && AllPass(s[3..], values, formats);
    assert AllPass(s[1..], values, formats) <==> Passes(s[1], values, formats) && AllPass(s[2..], values, formats);
    assert AllPass(s, values, formats) <==> Passes(s[0], values, formats) && AllPass(s[1..], values, formats);
  }

  /** The last three checks: a password is present and the confirmation
      repeats it. */
  lemma ConfirmChecksInOrder(values: Values, formats: Formats)
    requires "password" in values && "confirmPassword" in values
    ensures AllPass(SCHEMA[5..], values, formats) <==>
              values["password"] != "" && values["confirmPassword"] == values["password"]
  {
    var s := SCHEMA;
    var p := values["password"];
    assert Passes(s[5], values, formats) <==> p != "";
    assert Passes(s[6], values, formats) <==> values["confirmPassword"] == "" || values["confirmPassword"] == p;
    assert Passes(s[7], values, formats) <==> values["confirmPassword"] != "";
    assert AllPass(s[7..], values, formats) <==> Passes(s[7], values, formats);
    assert AllPass(s[6..], values, formats) <==> Passes(s[6], values, formats) && AllPass(s[7..], values, formats);
    assert AllPass(s[5..], values, formats) <==> Passes(s[5], values, formats) && AllPass(s[6..], values, formats);
  }

  /** One line of the requirements list under the password field. */
  datatype Requirement = Requirement(caption: string, met: bool)

  /** The requirements list, in the order the page shows it. */
  function Checklist(p: string): (r: seq<Requirement>)
    ensures |r| == 5
    ensures (forall i :: 0 <= i < |r| ==> r[i].met) <==> StrongPassword(p)
  {
    var r := [ Requirement("one lowercase character", Contains(p, Lowercase)),
               Requirement("one special character", Contains(p, NonAlphanumeric)),
               Requirement("one uppercase character", Contains(p, Uppercase)),
               Requirement("8 character minimum", Text.Utf16Length(p) >= 8),
               Requirement("one number", Contains(p, Digit)) ];
    assert (forall i :: 0 <= i < |r| ==> r[i].met) ==> r[0].met && r[1].met && r[2].met && r[3].met && r[4].met;
    r
  }

  /** The check of the schema that each line of the list mirrors. */
  const MIRRORED: seq<nat> := [1, 4, 2, 0, 3]

  /** Each line of the list is met exactly when the password is not empty
      and the check it mirrors passes. An empty password meets no line, while
      its mirrored checks pass and only `required` fails. A fully green list
      therefore means the password field shows no error. */
  lemma ChecklistMirrorsSchema(values: Values, formats: Formats)
    requires "password" in values
    ensures var r := Checklist(values["password"]);
            forall i :: 0 <= i < 5 ==>
              (r[i].met <==> values["password"] != "" && Passes(SCHEMA[MIRRORED[i]], values, formats))
    ensures values["password"] == "" ==> forall i :: 0 <= i < 5 ==> Passes(SCHEMA[MIRRORED[i]], values, formats)
  {
  }

  lemma {:induction false} StrongExample()
    ensures forall i :: 0 <= i < 5 ==> Checklist("Abcdef1!")[i].met
  {
    var p := "Abcdef1!";
    assert InClass(p[1], Lowercase) && InClass(p[0], Uppercase) && InClass(p[6], Digit) && InClass(p[7], NonAlphanumeric);
  }

  /** Six characters, two of them outside the Basic Multilingual Plane (two
      emoji, say), make eight UTF-16 code units: the browser counts the
      password "aA1!" followed by them as long enough, and so does the
      model. */
  lemma {:induction false} AstralPasswordMeetsMinimum(p: string, e: char)
    requires e as int >= 0x1_0000
    requires p == "aA1!" + [e, e]
    ensures |p| == 6
    ensures StrongPassword(p)
    ensures forall i :: 0 <= i < 5 ==> Checklist(p)[i].met
  {
    Text.Utf16LengthAppend("aA1!", [e, e]);
    assert Text.Utf16Length("aA1!") == 4;
    assert [e, e][1..] == [e] && [e][1..] == [];
    assert Text.Utf16Length([e, e]) == 4;
    assert InClass(p[0], Lowercase) && InClass(p[1], Uppercase) && InClass(p[2], Digit) && InClass(p[3], NonAlphanumeric);
  }

  lemma WeakExample()
    ensures Checklist("abc") == [
              Requirement("one lowercase character", true),
              Requirement("one special character", false),
              Requirement("one uppercase character", false),
              Requirement("8 character minimum", false),
              Requirement("one number", false) ]
  {
    var p := "abc";
    assert InClass(p[0], Lowercase);
  }

  /** `!token`: the page shows the form only for a link with a non-empty
      token; otherwise it shows the invalid-link view, whose one button
      leads to the forgot-password page. */
  predicate ShowsForm(token: Option<string>) {
    token.Some? && token.value != ""
  }

  /** The reset call made on submit. Without a token no form is shown, so no
      call can be made. */
  function OnSubmit(token: Option<string>, values: Values, formats: Formats): (r: Option<Api.Call>)
    ensures r.Some? <==> ShowsForm(token) && IsValid(SCHEMA, values, formats)
    ensures r.Some? ==> r.value == Api.ResetPassword(Str(token.value), Field(values, "password"))
  {
    if ShowsForm(token) then Submit(SCHEMA, values, formats, Api.ResetPassword(Str(token.value), Field(values, "password")))
    else None
  }

  function OnReply(reply: Api.Settled): (r: seq<Effect>)
    ensures reply.Resolved? ==> r == [Toast(true, RESET_DONE), Navigate("/login")]
    ensures reply.Rejected? ==> r == [Toast(false, Api.FailureText(reply.failure, RESET_FAILED))]
  {
    match reply
    case Resolved(_) => [Toast(true, RESET_DONE), Navigate("/login")]
    case Rejected(failure) => [Toast(false, Api.FailureText(failure, RESET_FAILED))]
  }

  /** A password the page accepts is never refused by the server as
      missing: it contains a lowercase letter, which trimming keeps. */
  lemma AcceptedPasswordReachesService(values: Values, formats: Formats, token: string)
    requires "password" in values && "confirmPassword" in values
    requires IsValid(SCHEMA, values, formats)
    ensures !AuthController.Missing(map["token" := token, "newPassword" := values["password"]], "newPassword")
  {
    var p := values["password"];
    ResetRules(values, formats);
    var i :| 0 <= i < |p| && InClass(p[i], Lowercase);
    Text.BlankIffAllTrimmable(p);
    assert !Text.IsTrimmable(p[i]);
  }
}
