/** The controller advice that turns every exception escaping a controller
    into an HTTP response carrying an `ApiError`. Handler selection is by the
    exception's kind; a kind without a dedicated handler falls to the
    catch-all for `Exception`. */
module ExceptionHandler {
  import opened Wrappers
  import opened Exceptions
  import opened ApiErrors

  datatype ResponseEntity = ResponseEntity(status: Status, body: ApiError)

  function Build(e: ApiError): (r: ResponseEntity)
    ensures r.status == r.body.status && r.body == e
  {
    ResponseEntity(e.status, e)
  }

  /** The field-to-message map the validation handler fills with `put`, so a
      later error for the same field replaces an earlier one. */
  function FieldErrorMap(errors: seq<FieldError>): (m: map<string, string>)
    ensures m.Keys == set k | 0 <= k < |errors| :: errors[k].field
    decreases |errors|
  {
    if errors == [] then map[]
    else
      var last := errors[|errors| - 1];
      FieldErrorMap(errors[..|errors| - 1])[last.field := last.defaultMessage]
  }

  /** Each field in the map carries the message of the LAST error for it. */
  lemma {:induction false} FieldErrorMapKeepsLast(errors: seq<FieldError>, k: nat)
    requires k < |errors|
    requires forall j :: k < j < |errors| ==> errors[j].field != errors[k].field
    ensures FieldErrorMap(errors)[errors[k].field] == errors[k].defaultMessage
    decreases |errors|
  {
    if k < |errors| - 1 {
      var init := errors[..|errors| - 1];
      assert forall j :: k < j < |init| ==> init[j] == errors[j];
      FieldErrorMapKeepsLast(init, k);
    }
  }

  /** A handler's reply: `new ApiError(status)` with its message and debug
      message set, wrapped in a response of the same status. */
  function Reply(status: Status, now: int, message: string, debug: Option<string>): (r: ResponseEntity)
    ensures r.status == status && r.body.status == status && r.body.timestamp == now
    ensures r.body.message == Some(message) && r.body.debugMessage == debug && r.body.subErrors == Some([])
  {
    Build(OfStatus(status, now).(message := Some(message), debugMessage := debug))
  }

  /** The handler for each exception kind, as written. `render` is the
      `toString` of a Java map, whose entry order is not specified. */
  function Handle(ex: Exception, now: int, render: map<string, string> -> string): (r: ResponseEntity)
    ensures r.status == r.body.status
    ensures r.body.timestamp == now && r.body.subErrors == Some([])
    ensures CatchAll(ex) ==> r.status == InternalServerError && r.body.message == Some("An unexpected error occurred")
                             && r.body.debugMessage == ex.Message()
  {
    match ex
    case EmailAlreadyExists(msg) => Reply(Conflict, now, msg, None)
    case InvalidToken(msg) => Reply(Unauthorized, now, msg, None)
    case ResourceNotFound(msg) => Reply(NotFound, now, msg, None)
    case BadCredentials(_) => Reply(Unauthorized, now, "Invalid email or password", None)
    case OtherAuthentication(msg) => Reply(Unauthorized, now, msg, None)
    case MethodArgumentNotValid(errors, _) => Reply(BadRequest, now, "Validation error", Some(render(FieldErrorMap(errors))))
    case ConstraintViolation(msg) => Reply(BadRequest, now, "Validation error", Some(msg))
    case MaxUploadSizeExceeded(_) => Reply(BadRequest, now, "File size exceeds maximum limit", None)
    case _ => Reply(InternalServerError, now, "An unexpected error occurred", ex.Message())
  }

  /** What each dedicated handler answers. */
  lemma DedicatedHandlers(ex: Exception, now: int, render: map<string, string> -> string)
    ensures var r := Handle(ex, now, render);
      && (ex.EmailAlreadyExists? ==> r.status == Conflict && r.body.message == Some(ex.msg) && r.body.debugMessage.None?)
      && (ex.InvalidToken? ==> r.status == Unauthorized && r.body.message == Some(ex.msg) && r.body.debugMessage.None?)
      && (ex.ResourceNotFound? ==> r.status == NotFound && r.body.message == Some(ex.msg) && r.body.debugMessage.None?)
      && (ex.BadCredentials? ==> r.status == Unauthorized && r.body.message == Some("Invalid email or password") && r.body.debugMessage.None?)
      && (ex.OtherAuthentication? ==> r.status == Unauthorized && r.body.message == Some(ex.msg) && r.body.debugMessage.None?)
      && (ex.MethodArgumentNotValid? ==> r.status == BadRequest && r.body.message == Some("Validation error")
                                         && r.body.debugMessage == Some(render(FieldErrorMap(ex.fieldErrors))))
      && (ex.ConstraintViolation? ==> r.status == BadRequest && r.body.message == Some("Validation error") && r.body.debugMessage == Some(ex.msg))
      && (ex.MaxUploadSizeExceeded? ==> r.status == BadRequest && r.body.message == Some("File size exceeds maximum limit") && r.body.debugMessage.None?)
  {
  }

  /** The kinds no dedicated handler matches. A `ResponseStatusException` is
      one of them: the catch-all handler for `Exception` matches it before
      Spring's own status resolution is consulted. */
  predicate CatchAll(ex: Exception) {
    !(ex.EmailAlreadyExists? || ex.InvalidToken? || ex.ResourceNotFound? || ex.BadCredentials?
      || ex.OtherAuthentication? || ex.MethodArgumentNotValid? || ex.ConstraintViolation?
      || ex.MaxUploadSizeExceeded?)
  }

  /** Only the catch-all answers 500: every dedicated handler picks a client
      error status. */
  lemma ServerErrorIffCatchAll(ex: Exception, now: int, render: map<string, string> -> string)
    ensures Handle(ex, now, render).status == InternalServerError <==> CatchAll(ex)
  {
    var r := Handle(ex, now, render);
    if !CatchAll(ex) {
      assert r.status.Code() < 500;
    }
  }

  /** As written, every status a service chose with `ResponseStatusException`
      (400, 403, 404) reaches the client as 500 with a generic message: for
      instance a wrong current password on a password change. */
  lemma ServiceStatusBecomesServerError(status: Status, reason: string, now: int, render: map<string, string> -> string)
    ensures Handle(ResponseStatus(status, reason), now, render).status == InternalServerError
    ensures Handle(ResponseStatus(status, reason), now, render).body.message == Some("An unexpected error occurred")
  {
  }

  lemma WrongPasswordIsReportedAs500(now: int, render: map<string, string> -> string)
    ensures var r := Handle(ResponseStatus(BadRequest, "Current password is incorrect"), now, render);
            r.status.Code() == 500 && r.body.message != Some("Current password is incorrect")
  {
  }

  /** The evidently intended mapping: a `ResponseStatusException` keeps the
      status and reason the service gave it; every other kind is handled as
      above. */
  function HandleRespectingStatus(ex: Exception, now: int, render: map<string, string> -> string): (r: ResponseEntity)
    ensures r.status == r.body.status
    ensures ex.ResponseStatus? ==> r.status == ex.status && r.body.message == Some(ex.reason)
    ensures !ex.ResponseStatus? ==> r == Handle(ex, now, render)
  {
    match ex
    case ResponseStatus(status, reason) => Reply(status, now, reason, None)
    case _ => Handle(ex, now, render)
  }

  /** With the intended mapping, the client sees exactly the status the
      service chose, so a client error is never reported as a server error. */
  lemma IntendedKeepsClientErrors(status: Status, reason: string, now: int, render: map<string, string> -> string)
    requires status != InternalServerError
    ensures HandleRespectingStatus(ResponseStatus(status, reason), now, render).status.Code() < 500
  {
  }
}
