/**
 * The legacy request of package `io.kvarto.http` (http/HttpRequest.kt):
 * its builder copies, `RequestContext` with its defaults, the legacy
 * `RetryConfig`, `NO_BACKOFF` and `NO_RETRY`. Headers and query parameters
 * are legacy string multimaps; the body is the legacy chunk body.
 */
module LegacyHttpRequest {
  import opened Wrappers
  import opened Throwables
  import opened HttpTypes
  import Domain
  import SMM = LegacyStringMultiMapImpl

  /** A backoff strategy answers the delay, in milliseconds, before a round. */
  type BackoffStrategy = int -> int

  datatype RetryConfig = RetryConfig(
    retries: int,
    backoffStrategy: BackoffStrategy,
    totalTimeoutMs: int,
    isRetriable: Throwable -> bool)

  /** `NO_BACKOFF`. */
  function NoBackoff(round: int): (r: int)
    ensures r == 0
  {
    0
  }

  /** `Long.MAX_VALUE` milliseconds. */
  const LongMaxValue: int := 0x7fff_ffff_ffff_ffff

  /** `NO_RETRY`: no retries, no backoff, an unbounded total timeout, and no error retriable. */
  function NoRetry(): (r: RetryConfig)
    ensures r.retries == 0 && r.totalTimeoutMs == LongMaxValue
    ensures forall round :: r.backoffStrategy(round) == 0
    ensures forall t :: !r.isRetriable(t)
  {
    RetryConfig(0, NoBackoff, LongMaxValue, t => false)
  }

  datatype RequestContext = RequestContext(
    operationId: Option<string>,
    successStatuses: set<HttpStatus>,
    timeoutMs: int,
    retry: RetryConfig)

  /** `RequestContext.EMPTY`; the default success statuses are given, as their declaration is not part of this model. */
  function EmptyContext(defaultSuccessStatuses: set<HttpStatus>): (r: RequestContext)
    ensures r.operationId.None? && r.timeoutMs == 2000 && r.successStatuses == defaultSuccessStatuses
    ensures r.retry.retries == 0 && forall t :: !r.retry.isRetriable(t)
  {
    RequestContext(None, defaultSuccessStatuses, 2000, NoRetry())
  }

  datatype HttpRequest = HttpRequest(
    url: Url,
    httpMethod: HttpMethod,
    headers: SMM.StringMultiMap,
    params: SMM.StringMultiMap,
    body: Domain.Body)

  /** `HttpRequest(url)` with every default: GET, no headers, no query parameters, the empty body. */
  function NewRequest(url: Url): (r: HttpRequest)
    ensures r.url == url && r.httpMethod == GET
    ensures SMM.Values(r.headers) == [] && SMM.Values(r.params) == [] && r.body.content == []
  {
    HttpRequest(url, GET, SMM.Empty, SMM.Empty, Domain.EmptyBody)
  }

  /** `withPath(path)`: only the URL changes. */
  function WithPath(req: HttpRequest, path: string, resolve: (Url, string) -> Url): (r: HttpRequest)
    ensures r.url == resolve(req.url, path)
    ensures r.httpMethod == req.httpMethod && r.headers == req.headers && r.params == req.params && r.body == req.body
  {
    req.(url := resolve(req.url, path))
  }

  /** `withMethod(method)`: only the method changes. */
  function WithMethod(req: HttpRequest, m: HttpMethod): (r: HttpRequest)
    ensures r.httpMethod == m
    ensures r.url == req.url && r.headers == req.headers && r.params == req.params && r.body == req.body
  {
    req.(httpMethod := m)
  }

  /** `addQueryParam(name, value)`: only the query parameters change, by one entry at the end. */
  function AddQueryParam(req: HttpRequest, name: string, value: string): (r: HttpRequest)
    ensures SMM.Values(r.params) == SMM.Values(req.params) + [(name, value)]
    ensures r.url == req.url && r.httpMethod == req.httpMethod && r.headers == req.headers && r.body == req.body
  {
    req.(params := SMM.Add(req.params, name, value))
  }

  /** `addHeader(name, value)`: only the headers change, by one entry at the end. */
  function AddHeader(req: HttpRequest, name: string, value: string): (r: HttpRequest)
    ensures SMM.Values(r.headers) == SMM.Values(req.headers) + [(name, value)]
    ensures r.url == req.url && r.httpMethod == req.httpMethod && r.params == req.params && r.body == req.body
  {
    req.(headers := SMM.Add(req.headers, name, value))
  }

  /** `withBody(body)`: only the body changes. */
  function WithBody(req: HttpRequest, body: Domain.Body): (r: HttpRequest)
    ensures r.body == body
    ensures r.url == req.url && r.httpMethod == req.httpMethod && r.headers == req.headers && r.params == req.params
  {
    req.(body := body)
  }

  /** Adding query parameters one by one is adding them as a list, in order. */
  lemma {:induction false} AddQueryParamsInOrder(req: HttpRequest, pairs: seq<SMM.Pair>)
    ensures SMM.Values(AddQueryParams(req, pairs).params) == SMM.Values(req.params) + pairs
    decreases |pairs|
  {
    if |pairs| > 0 {
      AddQueryParamsInOrder(req, pairs[..|pairs| - 1]);
      assert pairs[..|pairs| - 1] + [pairs[|pairs| - 1]] == pairs;
    }
  }

  /** Repeated `addQueryParam`, one call per pair. */
  function AddQueryParams(req: HttpRequest, pairs: seq<SMM.Pair>): HttpRequest
    decreases |pairs|
  {
    if |pairs| == 0 then req
    else
      var last := pairs[|pairs| - 1];
      AddQueryParam(AddQueryParams(req, pairs[..|pairs| - 1]), last.0, last.1)
  }
}
