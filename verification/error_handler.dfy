/**
 * The older fetch-based error utilities of lib/error-handler.ts: the status
 * switch of `handleFetchError`, `handleNetworkError`, `formatErrorForUser`,
 * `validateApiResponse` and the `retryWithBackoff` loop.
 */
module ErrorHandler {
  import opened Wrappers
  import Text
  import opened Types

  // The module's own `ERROR_MESSAGES` table.
  const ServerError: string := "Error del servidor. Por favor, intente nuevamente."
  const ValidationErrorMsg: string := "Error de validación. Verifique los datos ingresados."
  const UnauthorizedMsg: string := "No autorizado. Por favor, inicie sesión."
  const NotFoundMsg: string := "Recurso no encontrado."
  const TimeoutMsg: string := "Tiempo de espera agotado. Por favor, intente nuevamente."
  const NetworkErrorMsg: string := "Error de red. Verifique su conexión."
  const DuplicateDni: string := "Ya existe un socio con este DNI."
  const DuplicateEmail: string := "Ya existe un socio con este email."

  /** The values this module throws and catches. */
  datatype Thrown =
    | ApiError(message: string, status: int, code: Option<string>)
    | ValidationError(message: string)
    | TypeError(message: string)
    | OtherError(message: string)
    | NonError

  /**
   * The body of a failed response as `response.json()` yields it; `None`
   * when it does not parse or is `null`. Fields that are absent are `None`.
   */
  datatype ErrorBody = ErrorBody(message: Option<string>, code: Option<string>)

  /** The message `handleFetchError` settles on, by status. */
  function FetchErrorMessage(status: int, body: Option<ErrorBody>): (r: string)
    ensures |r| > 0
    ensures status == 400 ==>
      r == (if body.Some? && Truthy(body.value.message) then body.value.message.value else ValidationErrorMsg)
    ensures status == 401 ==> r == UnauthorizedMsg
    ensures status == 404 ==> r == NotFoundMsg
    ensures status == 408 ==> r == TimeoutMsg
    ensures status == 422 ==> r == ValidationErrorMsg
    ensures status == 409 ==>
      var code := if body.Some? then body.value.code else None;
      var parsed := if body.Some? && Truthy(body.value.message) then body.value.message.value else ServerError;
      r == (if code == Some("DUPLICATE_DNI") then DuplicateDni
            else if code == Some("DUPLICATE_EMAIL") then DuplicateEmail
            else parsed)
    ensures status !in {400, 401, 404, 408, 409, 422} ==> r == ServerError
  {
    // the message parsed from the body, used only when no case overrides it
    var parsed := if body.Some? && Truthy(body.value.message) then body.value.message.value else ServerError;
    var code := if body.Some? then body.value.code else None;
    if status == 400 then
      (if body.Some? && Truthy(body.value.message) then body.value.message.value else ValidationErrorMsg)
    else if status == 401 then UnauthorizedMsg
    else if status == 404 then NotFoundMsg
    else if status == 408 then TimeoutMsg
    else if status == 409 then
      (if code == Some("DUPLICATE_DNI") then DuplicateDni
       else if code == Some("DUPLICATE_EMAIL") then DuplicateEmail
       else parsed)
    else if status == 422 then ValidationErrorMsg
    else ServerError
  }

  /** `handleFetchError`: always throws an `ApiError` with the response status and the body's code. */
  function HandleFetchError(status: int, body: Option<ErrorBody>): (r: Thrown)
    ensures r.ApiError? && r.status == status
    ensures r.code == (if body.Some? then body.value.code else None)
    ensures r.message == FetchErrorMessage(status, body)
  {
    ApiError(FetchErrorMessage(status, body), status, if body.Some? then body.value.code else None)
  }

  /** Every message `handleFetchError` can produce is the body's own or one of the table's. */
  lemma FetchErrorMessageOrigin(status: int, body: Option<ErrorBody>)
    ensures var m := FetchErrorMessage(status, body);
      || (body.Some? && body.value.message == Some(m))
      || m in {ServerError, ValidationErrorMsg, UnauthorizedMsg, NotFoundMsg, TimeoutMsg, DuplicateDni, DuplicateEmail}
  {
  }

  /** `handleNetworkError`: what it throws for each kind of caught value. */
  function HandleNetworkError(e: Thrown): (r: Thrown)
    ensures r.ApiError?
    ensures e.ApiError? ==> r == e
    ensures e.TypeError? && Text.Contains(e.message, "fetch") ==> r == ApiError(NetworkErrorMsg, 0, None)
    ensures (e.ValidationError? || e.OtherError? || (e.TypeError? && !Text.Contains(e.message, "fetch")))
      ==> r == ApiError(e.message, 500, None)
    ensures e.NonError? ==> r == ApiError(ServerError, 500, None)
  {
    if e.TypeError? && Text.Contains(e.message, "fetch") then ApiError(NetworkErrorMsg, 0, None)
    else if e.ApiError? then e
    else if e.NonError? then ApiError(ServerError, 500, None)
    else ApiError(e.message, 500, None)
  }

  /** `formatErrorForUser`: the message of any `Error`, otherwise the server-error text. */
  function FormatErrorForUser(e: Thrown): (r: string)
    ensures !e.NonError? ==> r == e.message
    ensures e.NonError? ==> r == ServerError
  {
    if e.NonError? then ServerError else e.message
  }

  /**
   * The handler `createErrorHandler(onError)` returns, applied to `e`: the
   * message it returns, and the argument `onError` is called with, when
   * a callback was given.
   */
  function HandleWith(hasCallback: bool, e: Thrown): (r: (string, Option<string>))
    ensures r.0 == FormatErrorForUser(e)
    ensures r.1.Some? <==> hasCallback
    ensures r.1.Some? ==> r.1.value == r.0
  {
    var message := FormatErrorForUser(e);
    (message, if hasCallback then Some(message) else None)
  }

  /** A parsed JSON value, by JavaScript type. */
  datatype JsValue = JsNull | JsUndefined | JsBool(b: bool) | JsNumber(n: int) | JsString(s: string)
                   | JsObject | JsArray(elems: seq<JsValue>)

  /** `validateApiResponse`: passes truthy objects (arrays included) through, rejects the rest. */
  function ValidateApiResponse(data: JsValue): (r: Result<JsValue, Thrown>)
    ensures r.Ok? <==> data.JsObject? || data.JsArray?
    ensures r.Ok? ==> r.value == data
    ensures r.Err? ==> r.error == ValidationError("Respuesta de API inválida")
  {
    match data
    case JsObject => Ok(data)
    case JsArray(_) => Ok(data)
    case _ => Err(ValidationError("Respuesta de API inválida"))
  }

  // ---------------------------------------------------------------------------
  // retryWithBackoff

  /** What one call of `fn` does. */
  datatype Outcome<T> = Success(value: T) | Failure(error: Thrown)

  /** Errors that are rethrown at once instead of retried. */
  predicate NotRetried(e: Thrown) {
    e.ApiError? && e.status in {400, 401, 403, 422}
  }

  function Pow2(k: nat): (r: nat)
    ensures r >= 1
  {
    if k == 0 then 1 else 2 * Pow2(k - 1)
  }

  /** The wait before attempt `k + 1`. */
  function Delay(baseDelay: int, k: nat): int {
    baseDelay * Pow2(k)
  }

  function Sum(s: seq<int>): int {
    if s == [] then 0 else Sum(s[..|s| - 1]) + s[|s| - 1]
  }

  /**
   * `retryWithBackoff(fn, maxRetries, baseDelay)`. `fn` is given as the
   * outcome of each attempt, indexed from 0. Returns the settled result
   * (`Err(None)` is `throw undefined`, which happens only when the loop does
   * not run at all), how many times `fn` was called, and the waits performed.
   */
  method RetryWithBackoff<T>(fn: nat -> Outcome<T>, maxRetries: int := 3, baseDelay: int := 1000)
    returns (result: Result<T, Option<Thrown>>, calls: nat, delays: seq<int>)
    ensures maxRetries < 0 ==> result == Err(None) && calls == 0 && delays == []
    ensures maxRetries >= 0 ==> 1 <= calls <= maxRetries + 1
    ensures |delays| == (if calls == 0 then 0 else calls - 1)
    ensures forall k :: 0 <= k < |delays| ==> delays[k] == Delay(baseDelay, k)
    ensures forall k :: 0 <= k < calls - 1 ==> fn(k).Failure? && !NotRetried(fn(k).error)
    ensures calls > 0 && fn(calls - 1).Success? ==> result == Ok(fn(calls - 1).value)
    ensures calls > 0 && fn(calls - 1).Failure? ==>
      result == Err(Some(fn(calls - 1).error)) && (NotRetried(fn(calls - 1).error) || calls == maxRetries + 1)
  {
    var attempt := 0;
    delays := [];
    while attempt <= maxRetries
      invariant maxRetries >= 0 ==> attempt <= maxRetries
      invariant maxRetries < 0 ==> attempt == 0
      invariant |delays| == attempt
      invariant forall k :: 0 <= k < attempt ==> delays[k] == Delay(baseDelay, k)
      invariant forall k :: 0 <= k < attempt ==> fn(k).Failure? && !NotRetried(fn(k).error)
      decreases maxRetries - attempt
    {
      match fn(attempt)
      case Success(v) =>
        return Ok(v), attempt + 1, delays;
      case Failure(e) =>
        if NotRetried(e) || attempt == maxRetries {
          return Err(Some(e)), attempt + 1, delays;
        }
        delays := delays + [Delay(baseDelay, attempt)];
        attempt := attempt + 1;
    }
    assert maxRetries < 0;
    return Err(None), 0, [];
  }

  /** The total wait is `baseDelay · (2^n − 1)` for `n` waits. */
  lemma {:induction false} TotalDelay(baseDelay: int, n: nat)
    ensures Sum(seq(n, k requires 0 <= k => Delay(baseDelay, k))) == baseDelay * (Pow2(n) - 1)
  {
    if n > 0 {
      var s := seq(n, k requires 0 <= k => Delay(baseDelay, k));
      assert s[..n - 1] == seq(n - 1, k requires 0 <= k => Delay(baseDelay, k));
      TotalDelay(baseDelay, n - 1);
    }
  }

  /** With the defaults the three waits are 1, 2 and 4 seconds: 7 seconds in all. */
  lemma DefaultSchedule()
    ensures seq(3, k requires 0 <= k => Delay(1000, k)) == [1000, 2000, 4000]
    ensures Sum(seq(3, k requires 0 <= k => Delay(1000, k))) == 7000
  {
    TotalDelay(1000, 3);
  }
}
