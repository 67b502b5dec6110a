/** The HTTP statuses the backend uses and the exceptions its services and
    controllers throw, as a flat enumeration of kinds. Each kind carries the
    message the Java exception was built with. */
module Exceptions {
  import opened Wrappers

  datatype Status =
    | HttpOk
    | BadRequest
    | Unauthorized
    | Forbidden
    | NotFound
    | Conflict
    | InternalServerError
  {
    function Code(): (c: int)
      ensures 200 <= c < 600
      ensures HttpOk? <==> c == 200
      ensures c >= 500 <==> InternalServerError?
    {
      match this
      case HttpOk => 200
      case BadRequest => 400
      case Unauthorized => 401
      case Forbidden => 403
      case NotFound => 404
      case Conflict => 409
      case InternalServerError => 500
    }

    /** How `HttpStatus` prints itself: code, space, constant name. */
    function Text(): string {
      match this
      case HttpOk => "200 OK"
      case BadRequest => "400 BAD_REQUEST"
      case Unauthorized => "401 UNAUTHORIZED"
      case Forbidden => "403 FORBIDDEN"
      case NotFound => "404 NOT_FOUND"
      case Conflict => "409 CONFLICT"
      case InternalServerError => "500 INTERNAL_SERVER_ERROR"
    }
  }

  /** A bean-validation failure on one field of a request body. */
  datatype FieldError = FieldError(field: string, defaultMessage: string)

  datatype Exception =
      /** Spring's `ResponseStatusException(status, reason)`. */
    | ResponseStatus(status: Status, reason: string)
    | EmailAlreadyExists(msg: string)
    | InvalidToken(msg: string)
    | ResourceNotFound(msg: string)
    | BadCredentials(msg: string)
      /** Any other `AuthenticationException`. */
    | OtherAuthentication(msg: string)
    | MethodArgumentNotValid(fieldErrors: seq<FieldError>, msg: string)
    | ConstraintViolation(msg: string)
    | MaxUploadSizeExceeded(msg: string)
    | IllegalArgument(msg: string)
    | Runtime(msg: string)
      /** `substring` with a negative start. */
    | IndexOutOfBounds(msg: string)
      /** A null dereference. The JVM gives the one it raises itself a
          message naming the null value; one the code throws by hand, such
          as `Objects.requireNonNull`'s, has none. */
    | NullPointer(detail: Option<string>)
      /** A single-result query that matched several rows. */
    | NonUniqueResult(msg: string)
      /** A failure of the mail sender itself, which is unchecked. */
    | MailSend(msg: string)
  {
    /** `getMessage()`; a `ResponseStatusException` prints its status before
        the quoted reason, and only a null-pointer error thrown by hand has
        no message. */
    function Message(): (m: Option<string>)
      ensures m.None? <==> NullPointer? && detail.None?
      ensures NullPointer? ==> m == detail
      ensures ResponseStatus? ==> m == Some(status.Text() + " \"" + reason + "\"")
      ensures !ResponseStatus? && !NullPointer? ==> m == Some(msg)
    {
      match this
      case ResponseStatus(status, reason) => Some(status.Text() + " \"" + reason + "\"")
      case EmailAlreadyExists(msg) => Some(msg)
      case InvalidToken(msg) => Some(msg)
      case ResourceNotFound(msg) => Some(msg)
      case BadCredentials(msg) => Some(msg)
      case OtherAuthentication(msg) => Some(msg)
      case MethodArgumentNotValid(_, msg) => Some(msg)
      case ConstraintViolation(msg) => Some(msg)
      case MaxUploadSizeExceeded(msg) => Some(msg)
      case IllegalArgument(msg) => Some(msg)
      case Runtime(msg) => Some(msg)
      case IndexOutOfBounds(msg) => Some(msg)
      case NullPointer(detail) => detail
      case NonUniqueResult(msg) => Some(msg)
      case MailSend(msg) => Some(msg)
    }
  }

  /** The exception a service throws to answer with `status` and `reason`. */
  function Fail<T>(status: Status, reason: string): Result<T, Exception> {
    Err(ResponseStatus(status, reason))
  }
}
