/** What the pages share: the state of a form (its initial and current
    values), the effects a handler has besides its new state, and the small
    conversions between form values and the JavaScript values the client
    sends. */
module Ui {
  import opened Wrappers
  import opened Js
  import opened Validation
  import Api

  /** A toast, a client-side navigation, or a further call. */
  datatype Effect = Toast(success: bool, text: string) | Navigate(path: string) | Send(call: Api.Call)

  datatype Form = Form(initial: Values, values: Values)

  /** Formik's `dirty`: the current values differ from the initial ones. */
  predicate Dirty(f: Form) {
    f.values != f.initial
  }

  function Start(initial: Values): (f: Form)
    ensures f.initial == initial && !Dirty(f)
  {
    Form(initial, initial)
  }

  /** `setValues`: the initial values stay as they were. */
  function SetValues(f: Form, values: Values): (r: Form)
    ensures r.initial == f.initial && r.values == values
    ensures Dirty(r) <==> values != f.initial
  {
    f.(values := values)
  }

  /** `resetForm()`: back to the initial values. */
  function Reset(f: Form): (r: Form)
    ensures r.initial == f.initial && r.values == f.initial && !Dirty(r)
  {
    f.(values := f.initial)
  }

  /** The `disabled` condition of the settings pages' submit buttons. */
  predicate SubmitDisabled(loading: bool, f: Form, schema: Schema, formats: Formats) {
    loading || !Dirty(f) || !IsValid(schema, f.values, formats)
  }

  /** A freshly started or reset form cannot be submitted until it is edited. */
  lemma CleanFormCannotSubmit(loading: bool, f: Form, schema: Schema, formats: Formats)
    ensures SubmitDisabled(loading, Start(f.initial), schema, formats)
    ensures SubmitDisabled(loading, Reset(f), schema, formats)
    ensures !SubmitDisabled(loading, f, schema, formats) ==> !loading && Dirty(f)
  {
  }

  /** `values.key`: the text, or `undefined` for a field not in the form. */
  function Field(values: Values, key: string): (r: JsValue)
    ensures key in values <==> r.Str?
    ensures key in values ==> r == Str(values[key])
    ensures key !in values ==> r == Undefined
  {
    if key in values then Str(values[key]) else Undefined
  }

  /** The values object a handler passes as a request body. */
  function ValuesObject(values: Values): (r: JsValue)
    ensures r.Obj? && r.props.Keys == values.Keys
    ensures forall k :: k in values ==> r.props[k] == Str(values[k])
  {
    Obj(map k | k in values :: Str(values[k]))
  }

  /** `value || ''` for a text input: a falsy value shows as the empty text. */
  function TextOr(v: JsValue): (r: string)
    ensures !Truthy(v) ==> r == ""
    ensures v.Str? ==> r == v.s
  {
    if Truthy(v) then ToText(v) else ""
  }

  /** Formik runs `onSubmit` only when the schema passes. */
  function Submit<T>(schema: Schema, values: Values, formats: Formats, call: T): (r: Option<T>)
    ensures r.Some? <==> IsValid(schema, values, formats)
    ensures r.Some? ==> r.value == call
  {
    if IsValid(schema, values, formats) then Some(call) else None
  }

  const PROFILE_IMAGES_PATH: string := "/uploads/profile-images/"

  /** `getImageUrl`: null for a falsy file name, otherwise the file's URL
      below the server's base URL. */
  function ImageUrl(baseUrl: string, filename: JsValue): (r: JsValue)
    ensures !Truthy(filename) <==> r == Null
    ensures Truthy(filename) ==> r == Str(baseUrl + PROFILE_IMAGES_PATH + ToText(filename))
  {
    if Truthy(filename) then Str(baseUrl + PROFILE_IMAGES_PATH + ToText(filename)) else Null
  }

  /** Distinct stored names give distinct URLs, and the name is recovered
      from the URL by dropping the fixed prefix. */
  lemma ImageUrlRecoversName(baseUrl: string, name: string)
    requires name != ""
    ensures var u := ImageUrl(baseUrl, Str(name));
            u.Str? && u.s[|baseUrl + PROFILE_IMAGES_PATH|..] == name
  {
    var prefix := baseUrl + PROFILE_IMAGES_PATH;
    assert (prefix + name)[|prefix|..] == name;
  }
}
