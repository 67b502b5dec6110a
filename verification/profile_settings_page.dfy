/** The profile settings page: loading the profile into the form, saving it,
    and uploading or removing the profile image. */
module ProfileSettingsPage {
  import opened Wrappers
  import opened Js
  import opened Validation
  import opened Ui
  import Api
  import UserService
  import Exceptions

  const INITIAL: Values := map["name" := "", "jobTitle" := "", "bio" := ""]

  const SCHEMA: Schema := [Check("name", Required, "Name is required")]

  const LOAD_FAILED: string := "Failed to load profile data"
  const SAVED: string := "Profile updated successfully"
  const SAVE_FAILED: string := "Failed to update profile"
  const MAX_IMAGE_SIZE: nat := 10 * 1024 * 1024
  const TOO_LARGE: string := "Image size must be less than 10MB"
  const UPLOADED: string := "Profile image updated successfully!"
  const UPLOAD_FAILED: string := "Failed to upload image"
  const REMOVED: string := "Profile image removed successfully!"
  const REMOVE_FAILED: string := "Failed to remove image"

  /** The page's state: the image URL (or null), the busy flag, the user's
      id once known, the profile as last loaded (which the avatar is drawn
      from), whether the image failed to display, and the form. */
  datatype State = State(
    profileImage: JsValue,
    loading: bool,
    userId: JsValue,
    formData: Values,
    imageError: bool,
    form: Form)

  function Initial(): (st: State)
    ensures st.profileImage == Null && st.userId == Null && !st.loading && !st.imageError
    ensures st.form.values == INITIAL && !Dirty(st.form)
  {
    State(Null, false, Null, map["name" := "", "email" := "", "jobTitle" := "", "bio" := ""], false, Start(INITIAL))
  }

  /** The name is the only required field. */
  lemma ProfileRules(values: Values, formats: Formats)
    ensures IsValid(SCHEMA, values, formats) <==> "name" in values && values["name"] != ""
  {
    ValidIffAllPass(SCHEMA, values, formats);
    assert SCHEMA[0] in SCHEMA;
  }

  /** The four profile fields with falsy values shown as empty text. */
  function ProfileValues(data: JsValue): (r: Values)
    ensures r.Keys == {"name", "email", "jobTitle", "bio"}
    ensures forall k :: k in r ==> r[k] == TextOr(OptGet(data, k))
  {
    map["name" := TextOr(OptGet(data, "name")), "email" := TextOr(OptGet(data, "email")),
        "jobTitle" := TextOr(OptGet(data, "jobTitle")), "bio" := TextOr(OptGet(data, "bio"))]
  }

  /** The mount effect. Both calls must succeed; reading a field of a
      missing profile body fails before anything is set, while a missing id
      body fails after the form has been filled. */
  function Load(st: State, profile: Api.Settled, ids: Api.Settled, baseUrl: string): (r: (State, seq<Effect>))
    ensures profile.Rejected? || ids.Rejected? ==> r == (st, [Toast(false, LOAD_FAILED)])
    ensures profile.Resolved? && ids.Resolved? ==>
              var data := profile.response.data;
              var idData := ids.response.data;
              && ((data.Undefined? || data.Null?) ==> r == (st, [Toast(false, LOAD_FAILED)]))
              && (!(data.Undefined? || data.Null?) ==>
                    && r.0.formData == ProfileValues(data)
                    && r.0.form == SetValues(st.form, ProfileValues(data))
                    && r.0.loading == st.loading && r.0.imageError == st.imageError
                    && ((idData.Undefined? || idData.Null?) ==>
                          && r.0.userId == st.userId && r.0.profileImage == st.profileImage
                          && r.1 == [Toast(false, LOAD_FAILED)])
                    && (!(idData.Undefined? || idData.Null?) ==>
                          && r.0.userId == OptGet(idData, "id")
                          && r.0.profileImage == ImageUrl(baseUrl, OptGet(data, "profileImage"))
                          && r.1 == []))
  {
    if profile.Rejected? || ids.Rejected? then (st, [Toast(false, LOAD_FAILED)])
    else
      var data := profile.response.data;
      match Get(data, "name")
      case Err(_) => (st, [Toast(false, LOAD_FAILED)])
      case Ok(_) =>
        var values := ProfileValues(data);
        var filled := st.(formData := values, form := SetValues(st.form, values));
        match Get(ids.response.data, "id")
        case Err(_) => (filled, [Toast(false, LOAD_FAILED)])
        case Ok(id) =>
          var image := OptGet(data, "profileImage");
          (filled.(userId := id, profileImage := if Truthy(image) then ImageUrl(baseUrl, image) else Null), [])
  }

  /** The form holds an "email" field its initial values do not have, so
      right after a load it counts as edited and the save button is enabled
      for a valid name without any change. */
  lemma LoadedFormIsDirty(profile: Api.Response, ids: Api.Settled, baseUrl: string)
    requires !(profile.data.Undefined? || profile.data.Null?)
    requires ids.Resolved?
    ensures var st := Load(Initial(), Api.Resolved(profile), ids, baseUrl).0;
            Dirty(st.form) && "email" in st.form.values
  {
    assert "email" !in INITIAL;
  }

  /** Saving: a valid form marks the page busy and sends every form value,
      the email included. */
  function OnSubmit(st: State, formats: Formats): (r: (State, Option<Api.Call>))
    ensures r.1.Some? <==> IsValid(SCHEMA, st.form.values, formats)
    ensures r.1.Some? ==> r.0 == st.(loading := true) && r.1.value == Api.UpdateProfile(ValuesObject(st.form.values))
    ensures r.1.None? ==> r.0 == st
  {
    match Submit(SCHEMA, st.form.values, formats, Api.UpdateProfile(ValuesObject(st.form.values)))
    case Some(call) => (st.(loading := true), Some(call))
    case None => (st, None)
  }

  /** The save reply: never busy afterwards, the form is kept either way,
      and a failure shows a fixed text, not the server's message. */
  function OnSaved(st: State, reply: Api.Settled): (r: (State, Effect))
    ensures r.0 == st.(loading := false)
    ensures r.1 == Toast(reply.Resolved?, if reply.Resolved? then SAVED else SAVE_FAILED)
  {
    match reply
    case Resolved(_) => (st.(loading := false), Toast(true, SAVED))
    case Rejected(_) => (st.(loading := false), Toast(false, SAVE_FAILED))
  }

  /** Choosing a file: nothing chosen does nothing, a file over 10 MB is
      refused in the browser, anything else is uploaded. */
  function ChooseImage(file: Option<Api.File>): (r: (Option<Api.Call>, seq<Effect>))
    ensures r.0.Some? <==> file.Some? && file.value.size <= UserService.MAX_FILE_SIZE
    ensures r.0.Some? ==> r.0.value == Api.UpdateProfileImage(file) && r.1 == []
    ensures file.None? ==> r.1 == []
    ensures file.Some? && file.value.size > UserService.MAX_FILE_SIZE ==> r.1 == [Toast(false, TOO_LARGE)]
  {
    match file
    case None => (None, [])
    case Some(f) =>
      if f.size > MAX_IMAGE_SIZE then (None, [Toast(false, TOO_LARGE)])
      else (Some(Api.UpdateProfileImage(file)), [])
  }

  /** The browser's bound is the server's: no file the page uploads is
      refused by the server for its size, and every file the server would
      refuse for its size is stopped in the browser. */
  lemma BrowserBoundIsServerBound(f: Api.File)
    ensures ChooseImage(Some(f)).0.Some? <==>
              UserService.DecideImage(Some(UserService.Upload(f.size, Some(f.name))))
              != UserService.Reject(Exceptions.ResponseStatus(Exceptions.BadRequest, "File size must be less than 10MB"))
  {
  }

  /** An empty file passes the browser check, and the server treats it as
      a request to remove the stored image. */
  lemma EmptyFileRemovesImage(name: string)
    ensures ChooseImage(Some(Api.File(name, 0))).0 == Some(Api.UpdateProfileImage(Some(Api.File(name, 0))))
    ensures UserService.DecideImage(Some(UserService.Upload(0, Some(name)))) == UserService.RemoveStored
  {
  }

  /** The upload reply: the returned file name becomes the displayed URL. */
  function OnUploaded(st: State, reply: Api.Settled, baseUrl: string): (r: (State, Effect))
    ensures reply.Rejected? ==> r == (st, Toast(false, UPLOAD_FAILED))
    ensures reply.Resolved? && (reply.response.data.Undefined? || reply.response.data.Null?) ==>
              r == (st, Toast(false, UPLOAD_FAILED))
    ensures reply.Resolved? && !(reply.response.data.Undefined? || reply.response.data.Null?) ==>
              r == (st.(profileImage := ImageUrl(baseUrl, OptGet(reply.response.data, "profileImage"))), Toast(true, UPLOADED))
  {
    match reply
    case Rejected(_) => (st, Toast(false, UPLOAD_FAILED))
    case Resolved(response) =>
      match Get(response.data, "profileImage")
      case Err(_) => (st, Toast(false, UPLOAD_FAILED))
      case Ok(name) => (st.(profileImage := ImageUrl(baseUrl, name)), Toast(true, UPLOADED))
  }

  /** The image is drawn only when there is a URL and it has not failed to
      display; otherwise the default avatar is drawn. */
  predicate ShowsImage(st: State) {
    Truthy(st.profileImage) && !st.imageError
  }

  /** The image element's error handler. */
  function OnImageError(st: State): (r: State)
    ensures r.imageError && !ShowsImage(r)
    ensures r.(imageError := st.imageError) == st
  {
    st.(imageError := true)
  }

  /** Nothing resets the display error: once an image has failed to
      display, even a successful new upload leaves the default avatar. */
  lemma ImageErrorIsSticky(st: State, reply: Api.Settled, baseUrl: string)
    requires st.imageError
    ensures !ShowsImage(OnUploaded(st, reply, baseUrl).0)
  {
  }

  /** The remove button sends the call with no file. */
  const REMOVE_CALL: Api.Call := Api.UpdateProfileImage(None)

  function OnRemoved(st: State, reply: Api.Settled): (r: (State, Effect))
    ensures reply.Resolved? ==> r == (st.(profileImage := Null), Toast(true, REMOVED))
    ensures reply.Rejected? ==> r == (st, Toast(false, REMOVE_FAILED))
  {
    match reply
    case Resolved(_) => (st.(profileImage := Null), Toast(true, REMOVED))
    case Rejected(_) => (st, Toast(false, REMOVE_FAILED))
  }

  /** The remove call is the server's delete route, and a removal that
      went through leaves the default avatar on show. */
  lemma RemovalShowsAvatar(st: State, response: Api.Response)
    ensures Api.Endpoint(REMOVE_CALL).verb == Api.DELETE && Api.Endpoint(REMOVE_CALL).path == "/user/profile/image"
    ensures !ShowsImage(OnRemoved(st, Api.Resolved(response)).0)
  {
  }

  /** The "view portfolio" button: goes to the user's public page once the
      id is known, does nothing before. */
  function ViewPortfolio(st: State): (r: seq<Effect>)
    ensures Truthy(st.userId) <==> r != []
    ensures Truthy(st.userId) ==> r == [Navigate("/portfolio/" + ToText(st.userId))]
  {
    if Truthy(st.userId) then [Navigate("/portfolio/" + ToText(st.userId))] else []
  }
}
