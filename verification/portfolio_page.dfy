/** The public portfolio page of one user: profile and projects fetched
    together, the contact link, and the image or default avatar. */
module PortfolioPage {
  import opened Wrappers
  import opened Js
  import opened Ui
  import Api

  const LOAD_FAILED: string := "Failed to load portfolio"
  const MAILTO: string := "mailto:"

  /** The profile body (null until loaded), the projects body, and whether
      the image failed to display. */
  datatype State = State(profile: JsValue, projects: JsValue, imageError: bool)

  function Initial(): (st: State)
    ensures !Truthy(st.profile) && st.projects == Arr([]) && !st.imageError
  {
    State(Null, Arr([]), false)
  }

  /** The two calls made for the user id in the route. */
  function Calls(userId: string): (r: seq<Api.Call>)
    ensures |r| == 2
    ensures Api.Endpoint(r[0]).path == "/user/profile/" + userId
    ensures Api.Endpoint(r[1]).path == "/user/projects/" + userId
  {
    Api.ProjectsPathUniform(Str(userId));
    [Api.GetProfile(Str(userId)), Api.GetUserProjects(Str(userId))]
  }

  /** Both replies are taken as they are, unchecked, or neither is. */
  function OnLoaded(st: State, profile: Api.Settled, projects: Api.Settled): (r: (State, seq<Effect>))
    ensures profile.Resolved? && projects.Resolved? ==>
              r == (st.(profile := profile.response.data, projects := projects.response.data), [])
    ensures profile.Rejected? || projects.Rejected? ==> r == (st, [Toast(false, LOAD_FAILED)])
  {
    if profile.Resolved? && projects.Resolved? then
      (st.(profile := profile.response.data, projects := projects.response.data), [])
    else (st, [Toast(false, LOAD_FAILED)])
  }

  /** The page shows "Loading..." while the profile is falsy. */
  predicate Loading(st: State) {
    !Truthy(st.profile)
  }

  /** A failed load leaves the page loading for good; so does a successful
      reply without a body. */
  lemma EmptyOrFailedLoadKeepsLoading(profile: Api.Settled, projects: Api.Settled)
    requires profile.Rejected? || projects.Rejected? || !Truthy(profile.response.data)
    ensures Loading(OnLoaded(Initial(), profile, projects).0)
  {
  }

  /** The contact button: the new location when the profile has an email,
      nothing otherwise. */
  function Contact(st: State): (r: Option<string>)
    ensures r.Some? <==> Truthy(OptGet(st.profile, "email"))
    ensures r.Some? ==> r.value == MAILTO + ToText(OptGet(st.profile, "email"))
  {
    var email := OptGet(st.profile, "email");
    if Truthy(email) then Some(MAILTO + ToText(email)) else None
  }

  /** The address is recovered from the link by dropping the scheme. */
  lemma ContactAddressRecovered(st: State, address: string)
    requires address != ""
    requires st.profile == Obj(map["email" := Str(address)])
    ensures Contact(st).Some? && Contact(st).value[|MAILTO|..] == address
  {
    assert (MAILTO + address)[|MAILTO|..] == address;
  }

  /** The image is drawn for a profile with an image that has not failed to
      display; its source is the file's URL. */
  function ImageSource(st: State, baseUrl: string): (r: Option<JsValue>)
    ensures r.Some? <==> Truthy(OptGet(st.profile, "profileImage")) && !st.imageError
    ensures r.Some? ==> r.value.Str? && r.value == ImageUrl(baseUrl, OptGet(st.profile, "profileImage"))
  {
    var image := OptGet(st.profile, "profileImage");
    if Truthy(image) && !st.imageError then Some(ImageUrl(baseUrl, image)) else None
  }

  /** The image element's error handler: from then on the avatar is drawn. */
  function OnImageError(st: State): (r: State)
    ensures r.imageError && r.profile == st.profile && r.projects == st.projects
  {
    st.(imageError := true)
  }

  lemma AvatarAfterImageError(st: State, baseUrl: string)
    ensures ImageSource(OnImageError(st), baseUrl).None?
  {
  }
}
