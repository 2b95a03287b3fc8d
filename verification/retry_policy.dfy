/**
 * The query-level error policies: the global `handleQueryError` and `retry`
 * of lib/errors/query-error-handler.tsx, and the `retry` and `staleTime`
 * the application's `QueryClient` is actually created with
 * (providers/auth-provider.tsx).
 */
module RetryPolicy {
  import opened Wrappers
  import opened ErrorTypes
  import opened ErrorAdapter
  import opened Toasts

  /** Statuses the global handler never retries. */
  const NoRetryStatuses: set<int> := {400, 401, 403, 404, 422}

  /** `queryClientConfig.defaultOptions.queries.retry`. */
  predicate QueryRetry(failureCount: int, e: RawError) {
    ParseApiError(e).status !in NoRetryStatuses && failureCount < 2
  }

  /** `queryClientConfig` staleTime and gcTime: five and ten minutes. */
  const QueryStaleTime: int := 5 * 60 * 1000
  const QueryGcTime: int := 10 * 60 * 1000

  /**
   * Network failures and timeouts are retryable, at most twice; client errors
   * that carry a response with a listed status are never retried.
   */
  lemma QueryRetrySchedule(e: RawError, d: ResponseData, status: int, msg: string)
    requires IsNetworkFailure(e) || IsTimeout(e)
    ensures QueryRetry(0, e) && QueryRetry(1, e) && !QueryRetry(2, e)
    ensures status in NoRetryStatuses ==>
      forall n :: !QueryRetry(n, AxiosError(Some(HttpResponse(status, Some(d))), None, msg))
  {
  }

  /** `handleQueryError`: the toast it shows, if any. */
  function HandleQueryError(e: RawError): (r: Option<Toast>)
    ensures r.None? <==> ParseApiError(e).code in {Backend(Unauthorized), Backend(TokenInvalid)}
    ensures r.Some? ==>
      && r.value.kind == ErrorToast
      && r.value.title == AdaptError(e).title
      && r.value.description == Some(AdaptError(e).message)
      && r.value.duration == Some(if AdaptError(e).actionable then 5000 else 3000)
  {
    var ui := AdaptError(e);
    var api := ParseApiError(e);
    if api.code == Backend(Unauthorized) || api.code == Backend(TokenInvalid) then None
    else Some(Toast(ErrorToast, ui.title, Some(ui.message), Some(if ui.actionable then 5000 else 3000)))
  }

  /**
   * A backend session error is silent even when it arrives with a status
   * the classifier does not treat as authentication, e.g. 500.
   */
  lemma SessionErrorsAreSilent(c: BackendCode, status: int, msg: Option<string>, transport: Option<string>, m: string)
    requires c == Unauthorized || c == TokenInvalid
    ensures HandleQueryError(AxiosError(Some(HttpResponse(status, Some(ResponseData(Some(CodeString(c)), msg)))), transport, m)) == None
  {
    ParseCodeString(c);
  }

  /** `error?.response?.status`, for the errors that have one. */
  function ResponseStatus(e: RawError): (r: Option<int>)
    ensures r.Some? <==> e.AxiosError? && e.response.Some?
    ensures r.Some? ==> r.value == e.response.value.status
  {
    if e.AxiosError? && e.response.Some? then Some(e.response.value.status) else None
  }

  /** The provider's `retry`: never on 401, otherwise up to three retries. */
  predicate ProviderRetry(failureCount: int, e: RawError) {
    ResponseStatus(e) != Some(401) && failureCount < 3
  }

  /** The provider's default `staleTime`: one minute. */
  const ProviderStaleTime: int := 60 * 1000

  /** An unauthorized response is never retried; anything else, including errors with no response, is retried three times. */
  lemma ProviderRetryFacts(e: RawError)
    ensures ResponseStatus(e) == Some(401) ==> forall n :: !ProviderRetry(n, e)
    ensures ResponseStatus(e) != Some(401) ==> (ProviderRetry(2, e) && !ProviderRetry(3, e))
    ensures ResponseStatus(e).None? ==> ProviderRetry(0, e)
  {
  }
}
