/**
 * The request of `io.kvarto.http.common` (common/HttpRequest.kt) with its
 * metadata (`RequestMetadata`): an immutable record whose builders each
 * return a copy with one field, or one metadata field, replaced. Durations
 * are whole milliseconds; URL resolution is a parameter.
 */
module CommonHttpRequest {
  import opened Wrappers
  import opened Text
  import opened HttpTypes
  import RetryUtils
  import CommonBody
  import SMM = ClientStringMultiMapImpl

  datatype RequestMetadata = RequestMetadata(
    operationId: Option<string>,
    successStatuses: set<HttpStatus>,
    timeoutMs: int,
    retry: RetryUtils.RetryConfig)

  /**
   * `RequestMetadata.EMPTY`: no operation id, a two-second timeout, no
   * retries, and the default success statuses (given, as their declaration
   * is not part of this model).
   */
  function EmptyMetadata(defaultSuccessStatuses: set<HttpStatus>): (r: RequestMetadata)
    ensures r.operationId.None? && r.timeoutMs == 2000 && r.successStatuses == defaultSuccessStatuses
    ensures r.retry.retries == 0 && r.retry.backoffStrategy.NoBackoff?
  {
    RequestMetadata(None, defaultSuccessStatuses, 2000, RetryUtils.NoRetry)
  }

  datatype HttpRequest = HttpRequest(
    url: Url,
    httpMethod: HttpMethod,
    headers: SMM.StringMultiMap,
    parameters: SMM.StringMultiMap,
    body: CommonBody.Body,
    metadata: RequestMetadata)

  /** `HttpRequest(url)` with every default. */
  function NewRequest(url: Url, defaultSuccessStatuses: set<HttpStatus>): (r: HttpRequest)
    ensures r.url == url && r.httpMethod == GET
    ensures SMM.Values(r.headers) == [] && SMM.Values(r.parameters) == []
    ensures r.body.content == []
    ensures r.metadata.operationId.None? && r.metadata.timeoutMs == 2000 && r.metadata.retry.retries == 0
    ensures r.metadata.successStatuses == defaultSuccessStatuses
  {
    HttpRequest(url, GET, SMM.Empty, SMM.Empty, CommonBody.Empty, EmptyMetadata(defaultSuccessStatuses))
  }

  /** `withPath(path)`: only the URL changes, to the URL resolved against `path`. */
  function WithPath(req: HttpRequest, path: string, resolve: (Url, string) -> Url): (r: HttpRequest)
    ensures r.url == resolve(req.url, path)
    ensures r.httpMethod == req.httpMethod && r.headers == req.headers && r.parameters == req.parameters
    ensures r.body == req.body && r.metadata == req.metadata
  {
    req.(url := resolve(req.url, path))
  }

  /** `withMethod(method)`: only the method changes. */
  function WithMethod(req: HttpRequest, m: HttpMethod): (r: HttpRequest)
    ensures r.httpMethod == m
    ensures r.url == req.url && r.headers == req.headers && r.parameters == req.parameters
    ensures r.body == req.body && r.metadata == req.metadata
  {
    req.(httpMethod := m)
  }

  /** `addParameter(name, value)`: only the parameters change, by one entry at the end. */
  function AddParameter(req: HttpRequest, name: string, value: string): (r: HttpRequest)
    ensures SMM.Values(r.parameters) == SMM.Values(req.parameters) + [(name, value)]
    ensures r.url == req.url && r.httpMethod == req.httpMethod && r.headers == req.headers
    ensures r.body == req.body && r.metadata == req.metadata
  {
    req.(parameters := SMM.Add(req.parameters, name, value))
  }

  /** `addHeader(name, value)`: only the headers change, by one entry at the end. */
  function AddHeader(req: HttpRequest, name: string, value: string): (r: HttpRequest)
    ensures SMM.Values(r.headers) == SMM.Values(req.headers) + [(name, value)]
    ensures r.url == req.url && r.httpMethod == req.httpMethod && r.parameters == req.parameters
    ensures r.body == req.body && r.metadata == req.metadata
  {
    req.(headers := SMM.Add(req.headers, name, value))
  }

  /** `withBody(body)`: only the body changes. */
  function WithBody(req: HttpRequest, body: CommonBody.Body): (r: HttpRequest)
    ensures r.body == body
    ensures r.url == req.url && r.httpMethod == req.httpMethod && r.headers == req.headers
    ensures r.parameters == req.parameters && r.metadata == req.metadata
  {
    req.(body := body)
  }

  /** `withMetadata(metadata)`: only the metadata changes, replaced whole. */
  function WithMetadata(req: HttpRequest, metadata: RequestMetadata): (r: HttpRequest)
    ensures r.metadata == metadata
    ensures r.url == req.url && r.httpMethod == req.httpMethod && r.headers == req.headers
    ensures r.parameters == req.parameters && r.body == req.body
  {
    req.(metadata := metadata)
  }

  /** `withSuccessStatuses(statuses)`: only the metadata's success statuses change. */
  function WithSuccessStatuses(req: HttpRequest, statuses: set<HttpStatus>): (r: HttpRequest)
    ensures r.metadata.successStatuses == statuses
    ensures r.metadata.operationId == req.metadata.operationId && r.metadata.timeoutMs == req.metadata.timeoutMs
    ensures r.metadata.retry == req.metadata.retry
    ensures r.url == req.url && r.httpMethod == req.httpMethod && r.headers == req.headers
    ensures r.parameters == req.parameters && r.body == req.body
  {
    req.(metadata := req.metadata.(successStatuses := statuses))
  }

  /** `withTimeout(timeout)`: only the metadata's timeout changes. */
  function WithTimeout(req: HttpRequest, timeoutMs: int): (r: HttpRequest)
    ensures r.metadata.timeoutMs == timeoutMs
    ensures r.metadata.operationId == req.metadata.operationId && r.metadata.successStatuses == req.metadata.successStatuses
    ensures r.metadata.retry == req.metadata.retry
    ensures r.url == req.url && r.httpMethod == req.httpMethod && r.headers == req.headers
    ensures r.parameters == req.parameters && r.body == req.body
  {
    req.(metadata := req.metadata.(timeoutMs := timeoutMs))
  }

  /** Builders of different fields commute, and a second `withMethod` or `withTimeout` overrides the first. */
  lemma BuildersCommuteAndOverride(req: HttpRequest, m1: HttpMethod, m2: HttpMethod, t1: int, t2: int,
                                   statuses: set<HttpStatus>, name: string, value: string)
    ensures WithMethod(WithMethod(req, m1), m2) == WithMethod(req, m2)
    ensures WithTimeout(WithTimeout(req, t1), t2) == WithTimeout(req, t2)
    ensures WithTimeout(WithSuccessStatuses(req, statuses), t1) == WithSuccessStatuses(WithTimeout(req, t1), statuses)
    ensures AddHeader(AddParameter(req, name, value), name, value) == AddParameter(AddHeader(req, name, value), name, value)
  {
  }

  /** After `addParameter`, `getAll` on the parameters lists the new value last under every matching name. */
  lemma ParameterLookupAfterAdd(req: HttpRequest, name: string, value: string, q: string)
    ensures SMM.GetAll(AddParameter(req, name, value).parameters, q)
            == SMM.GetAll(req.parameters, q) + (if EqualsIgnoreCase(name, q) then [value] else [])
  {
    SMM.LookupAfterAdd(req.parameters, name, value, q);
  }
}
