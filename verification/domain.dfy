/**
 * The legacy request domain of package `io.kvarto.http` (http/domain.kt):
 * `Headers`, a case-insensitive map with one value per name; `Parameters`,
 * a case-sensitive map from a name to the list of its values; the legacy
 * `Body` constructors; and the request's builder copies.
 */
module Domain {
  import opened Wrappers
  import opened Throwables
  import opened Text
  import opened Chunks
  import opened HttpTypes
  import TM = CaseInsensitiveTreeMap
  import LegacyHttpUtils

  // ---------------------------------------------------------------- Headers

  /** `Headers(values)` keeps `values.toCaseInsensitiveMap()` as its data. */
  datatype Headers = Headers(data: TM.TreeMap)

  /** `Headers(values)`, the source map given as its entry list. */
  function NewHeaders(values: seq<TM.Pair>): (h: Headers)
    ensures forall q :: HeaderValue(h, q) == TM.LastValueFor(values, q)
    ensures |h.data| <= |values|
  {
    var h := Headers(LegacyHttpUtils.ToCaseInsensitiveMap(values));
    forall q ensures HeaderValue(h, q) == TM.LastValueFor(values, q) {
      LegacyHttpUtils.GetIsLastValue(values, q);
    }
    h
  }

  /** `Headers.EMPTY`. */
  const EmptyHeaders: Headers := Headers([])

  /** `headers[name]`: the value stored under a name equal to `name` ignoring case. */
  function HeaderValue(h: Headers, name: string): (r: Option<string>)
    ensures r.None? <==> !TM.HasKey(h.data, name)
    ensures r.Some? ==> exists i :: 0 <= i < |h.data| && EqualsIgnoreCase(h.data[i].0, name) && h.data[i].1 == r.value
  {
    TM.GetFindsStoredEntry(h.data, name);
    TM.Get(h.data, name)
  }

  /**
   * `headers.add(name, value)`: a copy of the data with `name` put, wrapped
   * in new `Headers`. Both copies of the already case-insensitive data are
   * the identity, so the result is the data with `name` put.
   */
  function AddHeader(h: Headers, name: string, value: string): (r: Headers)
    ensures r.data == TM.Put(h.data, name, value)
    ensures HeaderValue(r, name) == Some(value)
    ensures forall q :: !EqualsIgnoreCase(q, name) ==> HeaderValue(r, q) == HeaderValue(h, q)
  {
    LegacyHttpUtils.CopyIsIdentity(h.data);
    var put := TM.Put(LegacyHttpUtils.ToCaseInsensitiveMap(h.data), name, value);
    LegacyHttpUtils.CopyIsIdentity(put);
    TM.PutSpec(h.data, name, value);
    NewHeaders(put)
  }

  /** Header lookups ignore case, and after `add` every spelling of the name finds the new value. */
  lemma HeaderLookupIgnoresCase(h: Headers, name: string, value: string, q: string)
    requires EqualsIgnoreCase(q, name)
    ensures HeaderValue(h, q) == HeaderValue(h, name)
    ensures HeaderValue(AddHeader(h, name, value), q) == Some(value)
  {
    TM.GetIgnoresCase(h.data, q, name);
    TM.GetIgnoresCase(AddHeader(h, name, value).data, q, name);
  }

  // ------------------------------------------------------------- Parameters

  datatype Parameters = Parameters(data: map<string, seq<string>>)

  /** `Parameters.EMPTY`. */
  const EmptyParameters: Parameters := Parameters(map[])

  /**
   * `parameters[name]`: the last value listed under `name` (compared exactly),
   * null when the name is absent, and `NoSuchElementException` from `last()`
   * when its list is empty.
   */
  function ParameterValue(p: Parameters, name: string): (r: Result<Option<string>, Throwable>)
    ensures r.Failure? <==> name in p.data && |p.data[name]| == 0
    ensures r.Failure? ==> r.error.NoSuchElementException?
    ensures r == Success(None) <==> name !in p.data
  {
    if name !in p.data then Success(None)
    else if |p.data[name]| == 0 then Failure(NoSuchElementException("List is empty."))
    else Success(Some(p.data[name][|p.data[name]| - 1]))
  }

  /** `parameters.add(name, value)`: `value` appended to the list under `name`. */
  function AddParameter(p: Parameters, name: string, value: string): (r: Parameters)
    ensures r.data.Keys == p.data.Keys + {name}
    ensures |r.data[name]| > 0 && r.data[name][..|r.data[name]| - 1] == (if name in p.data then p.data[name] else [])
    ensures r.data[name][|r.data[name]| - 1] == value
    ensures forall k :: k in p.data && k != name ==> r.data[k] == p.data[k]
  {
    Parameters(p.data[name := (if name in p.data then p.data[name] else []) + [value]])
  }

  /** `Parameters.of(values)`: one single-value list per key. */
  function ParametersOf(values: map<string, string>): (r: Parameters)
    ensures r.data.Keys == values.Keys
    ensures WellFormed(r)
  {
    Parameters(map k | k in values :: [values[k]])
  }

  /** No name is listed with an empty list of values. */
  predicate WellFormed(p: Parameters)
  {
    forall k :: k in p.data ==> |p.data[k]| > 0
  }

  /** After `add`, the name answers the value just added and every other name answers what it did before. */
  lemma ParameterValueAfterAdd(p: Parameters, name: string, value: string, q: string)
    ensures ParameterValue(AddParameter(p, name, value), q)
            == if q == name then Success(Some(value)) else ParameterValue(p, q)
  {
  }

  /** `Parameters.of(values)` answers each key's value and null for other names. */
  lemma ParameterValueOfMap(values: map<string, string>, q: string)
    ensures ParameterValue(ParametersOf(values), q) == Success(if q in values then Some(values[q]) else None)
  {
  }

  /** `add` keeps parameters well formed, and on well-formed parameters `get` never throws. */
  lemma AddKeepsWellFormed(p: Parameters, name: string, value: string, q: string)
    requires WellFormed(p)
    ensures WellFormed(AddParameter(p, name, value))
    ensures ParameterValue(p, q).Success?
  {
  }

  // ------------------------------------------------------------------- Body

  /** The legacy `Body`: the chunks its `content()` emits. */
  datatype Body = Body(content: seq<Chunk>)

  /** `Body.EMPTY`. */
  const EmptyBody: Body := Body([])

  /** `Body(string)`: one chunk, the string's UTF-8 encoding. */
  function BodyOfString(s: string): (r: Body)
    ensures |r.content| == 1 && Flatten(r.content) == Utf8Encode(s)
  {
    FlattenSingleton(Utf8Encode(s));
    Body([Utf8Encode(s)])
  }

  /** `Body(bytes)`: one chunk, the bytes. */
  function BodyOfBytes(bytes: Chunk): (r: Body)
    ensures |r.content| == 1 && Flatten(r.content) == bytes
  {
    FlattenSingleton(bytes);
    Body([bytes])
  }

  // ---------------------------------------------------------------- Request

  datatype HttpRequest = HttpRequest(
    url: Url,
    httpMethod: HttpMethod,
    headers: Headers,
    parameters: Parameters,
    body: Option<Body>,
    operationId: Option<string>,
    successStatuses: set<HttpStatus>)

  /**
   * `HttpRequest(url)` with every default: GET, no headers, no parameters,
   * no body, no operation id, and the default success statuses (given, as
   * their declaration is not part of this model).
   */
  function NewRequest(url: Url, defaultSuccessStatuses: set<HttpStatus>): (r: HttpRequest)
    ensures r.url == url && r.httpMethod == GET && r.body.None? && r.operationId.None?
    ensures forall q :: HeaderValue(r.headers, q).None?
    ensures forall q :: ParameterValue(r.parameters, q) == Success(None)
    ensures r.successStatuses == defaultSuccessStatuses
  {
    HttpRequest(url, GET, EmptyHeaders, EmptyParameters, None, None, defaultSuccessStatuses)
  }

  /** `addParameter(name, value)`: only the parameters change, by one value under `name`. */
  function RequestAddParameter(req: HttpRequest, name: string, value: string): (r: HttpRequest)
    ensures ParameterValue(r.parameters, name) == Success(Some(value))
    ensures forall q :: q != name ==> ParameterValue(r.parameters, q) == ParameterValue(req.parameters, q)
    ensures r.url == req.url && r.httpMethod == req.httpMethod && r.headers == req.headers && r.body == req.body
    ensures r.operationId == req.operationId && r.successStatuses == req.successStatuses
  {
    req.(parameters := AddParameter(req.parameters, name, value))
  }

  /** `addHeader(name, value)`: only the headers change, `name` now answering `value`. */
  function RequestAddHeader(req: HttpRequest, name: string, value: string): (r: HttpRequest)
    ensures HeaderValue(r.headers, name) == Some(value)
    ensures forall q :: !EqualsIgnoreCase(q, name) ==> HeaderValue(r.headers, q) == HeaderValue(req.headers, q)
    ensures r.url == req.url && r.httpMethod == req.httpMethod && r.parameters == req.parameters && r.body == req.body
    ensures r.operationId == req.operationId && r.successStatuses == req.successStatuses
  {
    req.(headers := AddHeader(req.headers, name, value))
  }

  /** `withPath(path)`: only the URL changes, to the current URL resolved against `path`. */
  function RequestWithPath(req: HttpRequest, path: string, resolve: (Url, string) -> Url): (r: HttpRequest)
    ensures r.url == resolve(req.url, path)
    ensures r.httpMethod == req.httpMethod && r.headers == req.headers && r.parameters == req.parameters && r.body == req.body
    ensures r.operationId == req.operationId && r.successStatuses == req.successStatuses
  {
    req.(url := resolve(req.url, path))
  }
}
