/**
 * The central error adapter of lib/errors/error.adapter.ts: any thrown value
 * is parsed into an `ApiError` and then classified into a `UiError`.
 */
module ErrorAdapter {
  import opened Wrappers
  import opened ErrorTypes
  import opened ErrorMessages
  import Types

  /** The body of a backend error response; a field that is absent or not a string is `None`. */
  datatype ResponseData = ResponseData(code: Option<string>, message: Option<string>)

  /** `error.response`: the HTTP status, and the body when it is truthy. */
  datatype HttpResponse = HttpResponse(status: int, data: Option<ResponseData>)

  /**
   * What a hook can catch: an `AxiosError` (with an optional response, the
   * transport code such as `ERR_NETWORK`, and its message), any other `Error`,
   * or a thrown value that is not an `Error` at all.
   */
  datatype RawError =
    | AxiosError(response: Option<HttpResponse>, transportCode: Option<string>, message: string)
    | JsError(message: string)
    | NonError

  /** `error instanceof AxiosError && error.response?.data`. */
  predicate HasResponseData(e: RawError) {
    e.AxiosError? && e.response.Some? && e.response.value.data.Some?
  }

  predicate IsNetworkFailure(e: RawError) {
    !HasResponseData(e) && e.AxiosError? && e.transportCode == Some("ERR_NETWORK")
  }

  predicate IsTimeout(e: RawError) {
    !HasResponseData(e) && e.AxiosError? && e.transportCode == Some("ECONNABORTED")
  }

  /** `parseApiError`. */
  function ParseApiError(e: RawError): (r: ApiError)
    ensures |r.message| > 0
    ensures HasResponseData(e) ==>
      var d := e.response.value.data.value;
      && r.status == e.response.value.status
      && (r.code.Backend? <==> IsValidBackendCode(d.code))
      && (r.code.Backend? ==> d.code == Some(CodeString(r.code.code)))
      && r.message == (if Types.Truthy(d.message) then d.message.value else MessageOf(r.code))
    ensures !HasResponseData(e) ==> r.code == Unknown
    ensures IsNetworkFailure(e) ==> r.status == 0 && r.message == Message(NetworkKey)
    ensures IsTimeout(e) ==> r.status == 408 && r.message == Message(TimeoutKey)
    ensures !HasResponseData(e) && !IsNetworkFailure(e) && !IsTimeout(e) ==>
      && r.status == 500
      && r.message == (if e.NonError? then Message(UnknownKey)
                       else if e.message != "" then e.message
                       else Message(Code(UnexpectedError)))
  {
    if HasResponseData(e) then
      var d := e.response.value.data.value;
      var code := if IsValidBackendCode(d.code) then Backend(ParseCode(d.code.value).value) else Unknown;
      ApiError(e.response.value.status, code, if Types.Truthy(d.message) then d.message.value else MessageOf(code))
    else if e.AxiosError? && e.transportCode == Some("ERR_NETWORK") then
      ApiError(0, Unknown, Message(NetworkKey))
    else if e.AxiosError? && e.transportCode == Some("ECONNABORTED") then
      ApiError(408, Unknown, Message(TimeoutKey))
    else if e.AxiosError? || e.JsError? then
      ApiError(500, Unknown, if e.message != "" then e.message else Message(Code(UnexpectedError)))
    else
      ApiError(500, Unknown, Message(UnknownKey))
  }

  /** A response body wins over the transport code: the status is always the response's. */
  lemma ResponseTakesPrecedence(status: int, d: ResponseData, transport: string, msg: string)
    ensures ParseApiError(AxiosError(Some(HttpResponse(status, Some(d))), Some(transport), msg)).status == status
  {
  }

  predicate IsValidationError(a: ApiError) {
    a.code == Backend(ValidationError) || a.code == Backend(InvalidDni) || a.status == 400
  }

  predicate IsAuthError(a: ApiError) {
    a.code == Backend(Unauthorized) || a.code == Backend(TokenInvalid) || a.status == 401
  }

  predicate IsTransientError(a: ApiError) {
    a.status == 0 || a.status == 408
  }

  /**
   * `toUiError`, written as the source does: a default followed by three
   * tests, each overriding the previous result.
   */
  function ToUiError(a: ApiError): (r: UiError)
    ensures r.variant == (if IsTransientError(a) then Warning
                          else if IsAuthError(a) then Info
                          else if IsValidationError(a) then Warning
                          else Error)
    ensures r.actionable <==> r.variant != Error
    ensures r.title == Title(r.variant)
    ensures r.message == a.message
  {
    var (v0, act0) := (Error, false);
    var (v1, act1) := if IsValidationError(a) then (Warning, true) else (v0, act0);
    var (v2, act2) := if IsAuthError(a) then (Info, true) else (v1, act1);
    var (v3, act3) := if IsTransientError(a) then (Warning, true) else (v2, act2);
    UiError(Title(v3), a.message, v3, act3)
  }

  /** An HTTP 401 carrying a validation code is shown as information, not as a warning. */
  lemma AuthOverridesValidation(msg: string)
    ensures ToUiError(ApiError(401, Backend(ValidationError), msg)).variant == Info
  {
  }

  /** `adaptError`: parse, then classify. */
  function AdaptError(e: RawError): (r: UiError)
    ensures r.title == Title(r.variant) && |r.message| > 0
    ensures r.actionable <==> r.variant != Error
    ensures IsNetworkFailure(e) ==>
      r == UiError(Title(Warning), Message(NetworkKey), Warning, true)
    ensures IsTimeout(e) ==>
      r == UiError(Title(Warning), Message(TimeoutKey), Warning, true)
    ensures e.NonError? ==> r == UiError(Title(Error), Message(UnknownKey), Error, false)
  {
    ToUiError(ParseApiError(e))
  }
}
