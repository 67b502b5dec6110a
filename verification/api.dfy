/** The frontend's HTTP client: each call becomes a request descriptor (verb,
    path below the API base URL, body, headers); the request interceptor adds
    the bearer token (section 2.1 of RFC 6750); a server reply settles the
    call, and the response interceptor hands it on unchanged. The transport
    itself is not modelled: a reply is an input. */
module Api {
  import opened Wrappers
  import opened Js
  import Session

  datatype Verb = GET | POST | PUT | DELETE

  /** A file chosen in the browser: its name and its size in bytes. */
  datatype File = File(name: string, size: nat)

  datatype Body = NoBody | Json(value: JsValue) | Multipart(parts: seq<(string, File)>)

  datatype Request = Request(verb: Verb, path: string, body: Body, headers: map<string, string>)

  const CONTENT_TYPE: string := "Content-Type"
  const AUTHORIZATION: string := "Authorization"
  const BEARER_PREFIX: string := "Bearer "

  /** The headers every request starts with. */
  const DEFAULT_HEADERS: map<string, string> := map[CONTENT_TYPE := "application/json"]

  /** The exported calls of `auth`, `user` and `projects`, with the values
      their callers pass. */
  datatype Call =
    | Login(email: JsValue, password: JsValue)
    | Register(name: JsValue, email: JsValue, password: JsValue)
    | ForgotPassword(email: JsValue)
    | ResetPassword(token: JsValue, newPassword: JsValue)
    | GetCurrentUserId
    | GetProfile(userId: JsValue)
    | UpdateProfile(data: JsValue)
    | UpdateProfileImage(file: Option<File>)
    | ChangePassword(data: JsValue)
    | GetUserProjects(userId: JsValue)
    | AddProject(data: JsValue)
    | UpdateProject(projectId: JsValue, data: JsValue)
    | DeleteProject(projectId: JsValue)

  function JsonRequest(verb: Verb, path: string, body: JsValue): Request {
    Request(verb, path, Json(body), DEFAULT_HEADERS)
  }

  function BareRequest(verb: Verb, path: string): Request {
    Request(verb, path, NoBody, DEFAULT_HEADERS)
  }

  /** The request a call issues before the interceptor sees it. */
  function Endpoint(call: Call): (r: Request)
    ensures call.Login? ==> r == JsonRequest(POST, "/auth/login",
              Obj(map["email" := call.email, "password" := call.password]))
    ensures call.Register? ==> r == JsonRequest(POST, "/auth/register",
              Obj(map["name" := call.name, "email" := call.email, "password" := call.password]))
    ensures call.ForgotPassword? ==> r == JsonRequest(POST, "/auth/forgot-password", Obj(map["email" := call.email]))
    ensures call.ResetPassword? ==> r == JsonRequest(POST, "/auth/reset-password",
              Obj(map["token" := call.token, "newPassword" := call.newPassword]))
    ensures call.GetUserProjects? ==> r == BareRequest(GET, "/user/projects/" + ToText(call.userId))
    ensures call.UpdateProfileImage? && call.file.None? ==> r == BareRequest(DELETE, "/user/profile/image")
    ensures call.UpdateProfileImage? && call.file.Some? ==>
              r == Request(POST, "/user/profile/image", Multipart([("file", call.file.value)]),
                           DEFAULT_HEADERS[CONTENT_TYPE := "multipart/form-data"])
    ensures r.body.Multipart? <==> call.UpdateProfileImage? && call.file.Some?
  {
    match call
    case Login(email, password) =>
      JsonRequest(POST, "/auth/login", Obj(map["email" := email, "password" := password]))
    case Register(name, email, password) =>
      JsonRequest(POST, "/auth/register", Obj(map["name" := name, "email" := email, "password" := password]))
    case ForgotPassword(email) =>
      JsonRequest(POST, "/auth/forgot-password", Obj(map["email" := email]))
    case ResetPassword(token, newPassword) =>
      JsonRequest(POST, "/auth/reset-password", Obj(map["token" := token, "newPassword" := newPassword]))
    case GetCurrentUserId => BareRequest(GET, "/user/me/id")
    case GetProfile(userId) => BareRequest(GET, "/user/profile/" + ToText(userId))
    case UpdateProfile(data) => JsonRequest(PUT, "/user/profile", data)
    case UpdateProfileImage(file) =>
      if file.None? then BareRequest(DELETE, "/user/profile/image")
      else Request(POST, "/user/profile/image", Multipart([("file", file.value)]),
                   DEFAULT_HEADERS[CONTENT_TYPE := "multipart/form-data"])
    case ChangePassword(data) => JsonRequest(PUT, "/user/password", data)
    case GetUserProjects(userId) =>
      if userId == Str("me") then
        assert "/user/projects/" + ToText(userId) == "/user/projects/me";
        BareRequest(GET, "/user/projects/me")
      else BareRequest(GET, "/user/projects/" + ToText(userId))
    case AddProject(data) => JsonRequest(POST, "/user/projects", data)
    case UpdateProject(projectId, data) => JsonRequest(PUT, "/user/projects/" + ToText(projectId), data)
    case DeleteProject(projectId) => BareRequest(DELETE, "/user/projects/" + ToText(projectId))
  }

  /** The `user` and `projects` calls other than the image upload and the
      project listing. */
  lemma UserAndProjectEndpoints(call: Call)
    ensures var r := Endpoint(call);
      && (call.GetCurrentUserId? ==> r == BareRequest(GET, "/user/me/id"))
      && (call.GetProfile? ==> r == BareRequest(GET, "/user/profile/" + ToText(call.userId)))
      && (call.UpdateProfile? ==> r == JsonRequest(PUT, "/user/profile", call.data))
      && (call.ChangePassword? ==> r == JsonRequest(PUT, "/user/password", call.data))
      && (call.AddProject? ==> r == JsonRequest(POST, "/user/projects", call.data))
      && (call.UpdateProject? ==> r == JsonRequest(PUT, "/user/projects/" + ToText(call.projectId), call.data))
      && (call.DeleteProject? ==> r == BareRequest(DELETE, "/user/projects/" + ToText(call.projectId)))
  {
  }

  /** The two branches of `getUserProjects` agree: "me" and any other id
      both put the id's text after "/user/projects/". */
  lemma ProjectsPathUniform(userId: JsValue)
    ensures Endpoint(GetUserProjects(userId)).path == "/user/projects/" + ToText(userId)
  {
  }

  /** The request interceptor: a stored token that is not empty becomes the
      Authorization header; nothing else about the request changes. */
  function Intercept(req: Request, token: Option<string>): (r: Request)
    ensures r.verb == req.verb && r.path == req.path && r.body == req.body
    ensures forall k :: k != AUTHORIZATION ==> (k in r.headers <==> k in req.headers)
    ensures forall k :: k != AUTHORIZATION && k in r.headers ==> r.headers[k] == req.headers[k]
    ensures token.Some? && token.value != "" ==>
              AUTHORIZATION in r.headers && r.headers[AUTHORIZATION] == BEARER_PREFIX + token.value
    ensures token.None? || token.value == "" ==> r == req
  {
    match token
    case Some(t) =>
      if t != "" then req.(headers := req.headers[AUTHORIZATION := BEARER_PREFIX + t]) else req
    case None => req
  }

  /** How the server reads the header back: the credentials after the
      "Bearer " scheme. */
  function BearerCredentials(header: string): (r: Option<string>)
    ensures r.Some? <==> |BEARER_PREFIX| <= |header| && header[..|BEARER_PREFIX|] == BEARER_PREFIX
    ensures r.Some? ==> header == BEARER_PREFIX + r.value
  {
    if |BEARER_PREFIX| <= |header| && header[..|BEARER_PREFIX|] == BEARER_PREFIX
    then Some(header[|BEARER_PREFIX|..])
    else None
  }

  /** The request a call sends, given what is in storage. */
  function Prepare(call: Call, storage: Session.Storage): Request {
    Intercept(Endpoint(call), Session.GetItem(storage, Session.TOKEN_KEY))
  }

  /** Whatever token is stored, the server recovers exactly that token from
      the request, for every call; with no token there is no header. */
  lemma {:induction false} StoredTokenReachesServer(call: Call, storage: Session.Storage)
    ensures Session.TOKEN_KEY in storage && storage[Session.TOKEN_KEY] != "" ==>
              var h := Prepare(call, storage).headers;
              AUTHORIZATION in h && BearerCredentials(h[AUTHORIZATION]) == Some(storage[Session.TOKEN_KEY])
    ensures Session.TOKEN_KEY !in storage ==> AUTHORIZATION !in Prepare(call, storage).headers
  {
    var req := Endpoint(call);
    assert AUTHORIZATION !in req.headers;
    if Session.TOKEN_KEY in storage && storage[Session.TOKEN_KEY] != "" {
      var t := storage[Session.TOKEN_KEY];
      var h := BEARER_PREFIX + t;
      assert h[..|BEARER_PREFIX|] == BEARER_PREFIX;
      assert h[|BEARER_PREFIX|..] == t;
    }
  }

  /** A reply from the server, as axios exposes it. */
  datatype Response = Response(status: int, data: JsValue)

  /** What an `await` on a call produces: the response, or the error thrown.
      An error from axios carries the response when one arrived; any other
      error thrown inside a handler (a TypeError) carries none. */
  datatype Failure = HttpFailure(response: Option<Response>) | ScriptError

  datatype Settled = Resolved(response: Response) | Rejected(failure: Failure)

  /** axios settles a call by status: 2xx resolves, anything else (and no
      reply at all) rejects. */
  function Settle(reply: Option<Response>): (s: Settled)
    ensures s.Resolved? <==> reply.Some? && 200 <= reply.value.status < 300
    ensures s.Resolved? ==> s.response == reply.value
    ensures s.Rejected? ==> s.failure == HttpFailure(reply)
  {
    match reply
    case Some(resp) => if 200 <= resp.status < 300 then Resolved(resp) else Rejected(HttpFailure(reply))
    case None => Rejected(HttpFailure(None))
  }

  /** One round trip: the request sent, the settled reply after the response
      interceptor, and the storage afterwards. The request is the call's own
      verb, path and body, carrying the stored token when there is one; the
      reply settles by status; no reply, a 401 included, touches storage, and
      the response interceptor neither retries nor rewrites. */
  function Exchange(call: Call, storage: Session.Storage, reply: Option<Response>): (r: (Request, Settled, Session.Storage))
    ensures r.0.verb == Endpoint(call).verb && r.0.path == Endpoint(call).path && r.0.body == Endpoint(call).body
    ensures Session.TOKEN_KEY in storage && storage[Session.TOKEN_KEY] != "" ==>
              AUTHORIZATION in r.0.headers && BearerCredentials(r.0.headers[AUTHORIZATION]) == Some(storage[Session.TOKEN_KEY])
    ensures Session.TOKEN_KEY !in storage ==> AUTHORIZATION !in r.0.headers
    ensures r.1.Resolved? <==> reply.Some? && 200 <= reply.value.status < 300
    ensures r.1.Resolved? ==> r.1.response == reply.value
    ensures r.1.Rejected? ==> r.1.failure == HttpFailure(reply)
    ensures r.2 == storage
  {
    StoredTokenReachesServer(call, storage);
    (Prepare(call, storage), Settle(reply), storage)
  }

  /** A 401 does not sign the user out: the token stays, and the next call
      carries the same Authorization header as before. */
  lemma UnauthorizedKeepsToken(call: Call, next: Call, storage: Session.Storage, data: JsValue)
    ensures var after := Exchange(call, storage, Some(Response(401, data)));
            && after.1 == Rejected(HttpFailure(Some(Response(401, data))))
            && Session.GetItem(after.2, Session.TOKEN_KEY) == Session.GetItem(storage, Session.TOKEN_KEY)
            && Prepare(next, after.2) == Prepare(next, storage)
  {
  }

  /** `error.response?.data?.message` */
  function ServerMessage(f: Failure): (r: JsValue)
    ensures f.ScriptError? || f.response.None? ==> r == Undefined
    ensures r != Undefined ==> && f.HttpFailure? && f.response.Some? && f.response.value.data.Obj?
                               && "message" in f.response.value.data.props
                               && r == f.response.value.data.props["message"]
    ensures f.HttpFailure? && f.response.Some? && f.response.value.data.Obj? && "message" in f.response.value.data.props ==>
              r == f.response.value.data.props["message"]
  {
    match f
    case HttpFailure(Some(resp)) => OptGet(resp.data, "message")
    case _ => Undefined
  }

  /** `error.response?.data?.message || fallback`, as the toast shows it. */
  function FailureText(f: Failure, fallback: string): (r: string)
    ensures !Truthy(ServerMessage(f)) ==> r == fallback
    ensures Truthy(ServerMessage(f)) ==> r == ToText(ServerMessage(f))
  {
    ToText(Or(ServerMessage(f), Str(fallback)))
  }

  /** The text of the server's message is shown when it has one; the fallback
      when the reply has no message, no body or no response at all. */
  lemma FailureTextCases(msg: string, fallback: string, status: int)
    ensures msg != "" ==> FailureText(HttpFailure(Some(Response(status, Obj(map["message" := Str(msg)])))), fallback) == msg
    ensures FailureText(HttpFailure(Some(Response(status, Obj(map["message" := Str("")])))), fallback) == fallback
    ensures FailureText(HttpFailure(Some(Response(status, Null))), fallback) == fallback
    ensures FailureText(HttpFailure(None), fallback) == fallback
    ensures FailureText(ScriptError, fallback) == fallback
  {
  }
}
