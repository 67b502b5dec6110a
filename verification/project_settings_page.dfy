/** The project settings page: the list of the user's projects, the one form
    that both adds and edits a project, and deletion. `JSON.parse` is the
    parameter `parse`, which yields None where it would throw; the answer to
    the confirmation dialog is the parameter `confirmed`. */
module ProjectSettingsPage {
  import opened Wrappers
  import opened Js
  import opened Validation
  import opened Ui
  import Api
  import Entities
  import ProjectService
  import UserService
  import Text
  import Exceptions

  const INITIAL: Values := map["name" := "", "demoUrl" := "", "repositoryUrl" := "", "description" := ""]

  const SCHEMA: Schema := [
    Check("name", Required, "Required"),
    Check("demoUrl", UrlFormat, "Must be a valid URL"),
    Check("repositoryUrl", UrlFormat, "Must be a valid URL"),
    Check("description", Required, "Required")
  ]

  const LOAD_FAILED: string := "Failed to load projects"
  const UPDATED: string := "Project updated successfully!"
  const ADDED: string := "Project added successfully!"
  const SAVE_FAILED: string := "Failed to save project"
  const DELETED: string := "Project deleted successfully!"
  const DELETE_FAILED: string := "Failed to delete project"

  /** The call that (re)loads the list. */
  const FETCH: Api.Call := Api.GetUserProjects(Str("me"))

  /** The list shown, the project being edited (null when adding), and the
      form. */
  datatype State = State(projects: seq<JsValue>, editing: JsValue, form: Form)

  function Initial(): (st: State)
    ensures st.projects == [] && st.editing == Null && st.form.values == INITIAL && !Dirty(st.form)
  {
    State([], Null, Start(INITIAL))
  }

  /** A name and a description are required; each URL may be left empty
      but otherwise must pass the URL predicate. */
  lemma ProjectRules(values: Values, formats: Formats)
    ensures IsValid(SCHEMA, values, formats) <==>
              && "name" in values && values["name"] != ""
              && "description" in values && values["description"] != ""
              && ("demoUrl" in values ==> values["demoUrl"] == "" || formats.isUrl(values["demoUrl"]))
              && ("repositoryUrl" in values ==> values["repositoryUrl"] == "" || formats.isUrl(values["repositoryUrl"]))
  {
    ValidIffAllPassInOrder(SCHEMA, values, formats);
    var s := SCHEMA;
    assert AllPass(s[3..], values, formats) <==> Passes(s[3], values, formats);
    assert AllPass(s[2..], values, formats) <==> Passes(s[2], values, formats) && AllPass(s[3..], values, formats);
    assert AllPass(s[1..], values, formats) <==> Passes(s[1], values, formats) && AllPass(s[2..], values, formats);
    assert AllPass(s, values, formats) <==> Passes(s[0], values, formats) && AllPass(s[1..], values, formats);
  }

  /** What the list is set to from a reply body: a text is parsed first; an
      array is taken as it is; anything else, or a text that does not parse
      to an array, is the empty list. */
  function NormalisePayload(data: JsValue, parse: string -> Option<JsValue>): (r: seq<JsValue>)
    ensures data.Arr? ==> r == data.items
    ensures !data.Arr? && !data.Str? ==> r == []
    ensures data.Str? ==> r == (if parse(data.s).Some? && parse(data.s).value.Arr? then parse(data.s).value.items else [])
  {
    match data
    case Str(text) =>
      (match parse(text)
       case Some(Arr(items)) => items
       case _ => [])
    case Arr(items) => items
    case _ => []
  }

  /** A list sent as JSON text is shown exactly like the same list sent as
      an array. */
  lemma TextAndArrayAgree(items: seq<JsValue>, text: string, parse: string -> Option<JsValue>)
    requires parse(text) == Some(Arr(items))
    ensures NormalisePayload(Str(text), parse) == NormalisePayload(Arr(items), parse)
  {
  }

  /** `fetchProjects`: the list is replaced whatever happens; only a failed
      request shows a toast. */
  function OnFetched(st: State, reply: Api.Settled, parse: string -> Option<JsValue>): (r: (State, seq<Effect>))
    ensures r.0 == st.(projects := r.0.projects)
    ensures reply.Resolved? ==> r.0.projects == NormalisePayload(reply.response.data, parse) && r.1 == []
    ensures reply.Rejected? ==> r.0.projects == [] && r.1 == [Toast(false, Api.FailureText(reply.failure, LOAD_FAILED))]
  {
    match reply
    case Resolved(response) => (st.(projects := NormalisePayload(response.data, parse)), [])
    case Rejected(failure) => (st.(projects := []), [Toast(false, Api.FailureText(failure, LOAD_FAILED))])
  }

  /** A field as the edit handler copies it: a JSON null or missing value
      leaves the field undefined. */
  function Copied(values: Values, key: string, v: JsValue): (r: Values)
    ensures v.Undefined? || v.Null? ==> r == values - {key}
    ensures !(v.Undefined? || v.Null?) ==> r == values[key := ToText(v)]
  {
    if v.Undefined? || v.Null? then values - {key} else values[key := ToText(v)]
  }

  /** `handleEdit`: the card's project becomes the one being edited; name
      and description are copied as they are, the URLs with falsy values
      shown as empty text. */
  function HandleEdit(st: State, project: JsValue): (r: State)
    ensures r.editing == project && r.projects == st.projects && r.form.initial == st.form.initial
    ensures r.form.values.Keys >= {"demoUrl", "repositoryUrl"}
    ensures r.form.values["demoUrl"] == TextOr(OptGet(project, "demoUrl"))
    ensures r.form.values["repositoryUrl"] == TextOr(OptGet(project, "repositoryUrl"))
    ensures ("name" in r.form.values <==> !(OptGet(project, "name").Undefined? || OptGet(project, "name").Null?))
    ensures ("description" in r.form.values <==> !(OptGet(project, "description").Undefined? || OptGet(project, "description").Null?))
    ensures "name" in r.form.values ==> r.form.values["name"] == ToText(OptGet(project, "name"))
    ensures "description" in r.form.values ==> r.form.values["description"] == ToText(OptGet(project, "description"))
    ensures r.form.values.Keys <= {"name", "description", "demoUrl", "repositoryUrl"}
  {
    var urls := map["demoUrl" := TextOr(OptGet(project, "demoUrl")), "repositoryUrl" := TextOr(OptGet(project, "repositoryUrl"))];
    var values := Copied(Copied(urls, "name", OptGet(project, "name")), "description", OptGet(project, "description"));
    st.(editing := project, form := SetValues(st.form, values))
  }

  /** The submit handler: update the project being edited, or add one. */
  function OnSubmit(st: State, formats: Formats): (r: Option<Api.Call>)
    ensures r.Some? <==> IsValid(SCHEMA, st.form.values, formats)
    ensures r.Some? && Truthy(st.editing) ==>
              r.value == Api.UpdateProject(OptGet(st.editing, "id"), ValuesObject(st.form.values))
    ensures r.Some? && !Truthy(st.editing) ==> r.value == Api.AddProject(ValuesObject(st.form.values))
  {
    var body := ValuesObject(st.form.values);
    Submit(SCHEMA, st.form.values, formats,
           if Truthy(st.editing) then Api.UpdateProject(OptGet(st.editing, "id"), body) else Api.AddProject(body))
  }

  /** The save reply: success leaves edit mode (an edit clears the project
      being edited; an add has none to clear), empties the form and reloads
      the list; failure changes nothing. */
  function OnSaved(st: State, reply: Api.Settled): (r: (State, seq<Effect>))
    ensures reply.Resolved? ==>
              && r.0 == State(st.projects, if Truthy(st.editing) then Null else st.editing, Reset(st.form))
              && !Truthy(r.0.editing)
              && r.1 == [Toast(true, if Truthy(st.editing) then UPDATED else ADDED), Send(FETCH)]
    ensures reply.Rejected? ==> r == (st, [Toast(false, Api.FailureText(reply.failure, SAVE_FAILED))])
  {
    match reply
    case Resolved(_) =>
      var message := if Truthy(st.editing) then UPDATED else ADDED;
      (State(st.projects, if Truthy(st.editing) then Null else st.editing, Reset(st.form)), [Toast(true, message), Send(FETCH)])
    case Rejected(failure) => (st, [Toast(false, Api.FailureText(failure, SAVE_FAILED))])
  }

  /** The cancel button of edit mode. */
  function Cancel(st: State): (r: State)
    ensures r.editing == Null && r.projects == st.projects && r.form == Reset(st.form)
  {
    State(st.projects, Null, Reset(st.form))
  }

  /** Editing a card and submitting updates that card's project; after a
      save or a cancel the next submit adds a new project instead. */
  lemma EditTargetsThatProject(st: State, project: JsValue, formats: Formats, reply: Api.Settled)
    requires Truthy(project)
    requires IsValid(SCHEMA, HandleEdit(st, project).form.values, formats)
    ensures OnSubmit(HandleEdit(st, project), formats)
         == Some(Api.UpdateProject(OptGet(project, "id"), ValuesObject(HandleEdit(st, project).form.values)))
    ensures reply.Resolved? ==> !Truthy(OnSaved(HandleEdit(st, project), reply).0.editing)
    ensures !Truthy(Cancel(HandleEdit(st, project)).editing)
  {
  }

  /** The reloading call is the server's list route for the signed-in user. */
  lemma FetchIsOwnList()
    ensures Api.Endpoint(FETCH) == Api.BareRequest(Api.GET, "/user/projects/me")
  {
  }

  /** `handleDelete`: nothing is sent unless the dialog is confirmed. */
  function Delete(projectId: JsValue, confirmed: bool): (r: Option<Api.Call>)
    ensures r.Some? <==> confirmed
    ensures r.Some? ==> r.value == Api.DeleteProject(projectId)
  {
    if confirmed then Some(Api.DeleteProject(projectId)) else None
  }

  function OnDeleted(reply: Api.Settled): (r: seq<Effect>)
    ensures reply.Resolved? ==> r == [Toast(true, DELETED), Send(FETCH)]
    ensures reply.Rejected? ==> r == [Toast(false, DELETE_FAILED)]
  {
    match reply
    case Resolved(_) => [Toast(true, DELETED), Send(FETCH)]
    case Rejected(_) => [Toast(false, DELETE_FAILED)]
  }

  /** How the server binds the submitted values: a field the form does not
      hold arrives as null. */
  function RequestOf(values: Values): (req: Entities.ProjectRequest)
    ensures req.demoUrl.Some? <==> "demoUrl" in values
    ensures req.demoUrl.Some? ==> req.demoUrl.value == values["demoUrl"]
    ensures req.repositoryUrl.Some? <==> "repositoryUrl" in values
    ensures req.repositoryUrl.Some? ==> req.repositoryUrl.value == values["repositoryUrl"]
  {
    Entities.ProjectRequest(
      if "name" in values then Some(values["name"]) else None,
      if "demoUrl" in values then Some(values["demoUrl"]) else None,
      if "repositoryUrl" in values then Some(values["repositoryUrl"]) else None,
      if "description" in values then Some(values["description"]) else None)
  }

  /** When the browser's URL predicate accepts only what the server's
      parser accepts, a form the page lets through never fails the
      server's URL checks. */
  lemma ValidFormPassesServerUrlChecks(values: Values, formats: Formats, parses: string -> bool)
    requires forall u :: formats.isUrl(u) ==> parses(u)
    requires IsValid(SCHEMA, values, formats)
    ensures ProjectService.ValidateUrls(RequestOf(values), parses).None?
  {
    ProjectRules(values, formats);
  }

  /** Yup's `required` accepts a name made only of spaces, but the entity's
      `@NotBlank` does not: a form the page lets through with such a name is
      refused when the server saves the project. */
  lemma BlankNamePassesPageButNotServer(values: Values, formats: Formats, users: Entities.Users, projects: Entities.Projects,
                                        principal: string, parses: string -> bool, newId: Entities.ProjectId, report: string)
    requires newId !in projects
    requires IsValid(SCHEMA, values, formats)
    requires "name" in values && Text.IsBlank(values["name"])
    requires forall u :: formats.isUrl(u) ==> parses(u)
    requires UserService.GetCurrentUser(users, principal).Ok?
    ensures ProjectService.AddProject(users, projects, principal, RequestOf(values), parses, newId, report)
            == Err(Exceptions.ConstraintViolation(report))
  {
    ValidFormPassesServerUrlChecks(values, formats, parses);
  }

  /** Three spaces are such a name. */
  lemma SpacesAreBlankButRequiredPasses(formats: Formats)
    ensures Text.IsBlank("   ")
    ensures Passes(SCHEMA[0], map["name" := "   "], formats)
  {
    Text.BlankIffAllTrimmable("   ");
  }
}
