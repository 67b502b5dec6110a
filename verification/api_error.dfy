/** The error body the backend returns: a status, the time it was built, a
    message, a debug message and a list of sub-errors. The list is a nullable
    reference in the source (a setter can null it), hence an `Option`. The
    clock reading that the private constructor takes is a parameter. */
module ApiErrors {
  import opened Wrappers
  import opened Exceptions

  datatype SubError = ValidationSubError(obj: string, field: string, rejectedValue: string, message: string)

  datatype ApiError = ApiError(
    status: Status,
    timestamp: int,
    message: Option<string>,
    debugMessage: Option<string>,
    subErrors: Option<seq<SubError>>)

  /** `new ApiError(status)`: only the status is set. */
  function OfStatus(status: Status, now: int): (e: ApiError)
    ensures e.status == status && e.timestamp == now
    ensures e.message.None? && e.debugMessage.None?
    ensures e.subErrors == Some([])
  {
    ApiError(status, now, None, None, Some([]))
  }

  /** `new ApiError(status, message)` */
  function OfMessage(status: Status, message: string, now: int): (e: ApiError)
    ensures e.status == status && e.timestamp == now
    ensures e.message == Some(message) && e.debugMessage.None?
    ensures e.subErrors == Some([])
  {
    ApiError(status, now, Some(message), None, Some([]))
  }

  /** `new ApiError(status, ex)`: a generic message, the cause's text as the
      debug message. */
  function OfThrowable(status: Status, ex: Exception, now: int): (e: ApiError)
    ensures e.status == status && e.timestamp == now
    ensures e.message == Some("Unexpected error")
    ensures e.debugMessage == ex.Message()
    ensures e.subErrors == Some([])
  {
    ApiError(status, now, Some("Unexpected error"), ex.Message(), Some([]))
  }

  /** `new ApiError(status, message, ex)` */
  function OfMessageAndThrowable(status: Status, message: string, ex: Exception, now: int): (e: ApiError)
    ensures e.status == status && e.timestamp == now
    ensures e.message == Some(message)
    ensures e.debugMessage == ex.Message()
    ensures e.subErrors == Some([])
  {
    ApiError(status, now, Some(message), ex.Message(), Some([]))
  }

  /** `addSubError`: appends one element, creating the list when it is null. */
  function AddSubError(e: ApiError, sub: SubError): (r: ApiError)
    ensures r.subErrors.Some?
    ensures r.subErrors.value == e.subErrors.GetOr([]) + [sub]
    ensures r.(subErrors := e.subErrors) == e
  {
    e.(subErrors := Some(e.subErrors.GetOr([]) + [sub]))
  }

  /** `addSubError` applied to each element of `subs` in turn. */
  function AddSubErrors(e: ApiError, subs: seq<SubError>): ApiError
    decreases |subs|
  {
    if subs == [] then e else AddSubErrors(AddSubError(e, subs[0]), subs[1..])
  }

  /** Adding sub-errors one at a time leaves every earlier entry in place and
      puts the new ones at the end, in order; nothing else in the error
      changes. Starting from any constructor, the list is exactly `subs`. */
  lemma {:induction false} AddSubErrorsAppends(e: ApiError, subs: seq<SubError>)
    ensures subs != [] ==> AddSubErrors(e, subs).subErrors == Some(e.subErrors.GetOr([]) + subs)
    ensures AddSubErrors(e, subs).subErrors.GetOr([]) == e.subErrors.GetOr([]) + subs
    ensures AddSubErrors(e, subs).(subErrors := e.subErrors) == e
    decreases |subs|
  {
    if subs == [] {
      assert e.subErrors.GetOr([]) + subs == e.subErrors.GetOr([]);
    } else {
      var e' := AddSubError(e, subs[0]);
      AddSubErrorsAppends(e', subs[1..]);
      assert e'.subErrors.GetOr([]) == e.subErrors.GetOr([]) + [subs[0]];
      assert e.subErrors.GetOr([]) + [subs[0]] + subs[1..] == e.subErrors.GetOr([]) + subs;
    }
  }

  lemma FreshErrorCollectsExactly(status: Status, now: int, subs: seq<SubError>)
    ensures AddSubErrors(OfStatus(status, now), subs).subErrors == Some(subs)
  {
    AddSubErrorsAppends(OfStatus(status, now), subs);
    assert OfStatus(status, now).subErrors.GetOr([]) + subs == subs;
  }
}
