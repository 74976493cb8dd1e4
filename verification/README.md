# kvarto HTTP toolkit core, modelled in Dafny

This project models the sequential core of the kvarto HTTP toolkit, a Kotlin library built on Vert.x and coroutines. The model covers:

- **Retry engine** (`RetryUtils`). `retry`/`retryInner` are driven by a scripted list of call outcomes. Also modelled: the default `isRetryable` classifier, and the constant, exponential, Fibonacci and no-op backoff strategies. A run reports four things: the final outcome, the number of calls, the retry numbers handed to the backoff, and the delays the backoff answered.
- **Bodies as byte chunks.** This covers the sealed body variants behind `asBytes`/`asFlow`/`asString`, in both copies (`Utils`, `VertxUtils`). It also covers the `common.Body` constructors (`CommonBody`), the legacy body and its helpers (`Domain`, `LegacyBodyUtils`), and the 4096-byte `ByteBuffer` they drain into (`Chunks`).
- **Name/value containers.**
  - Both `StringMultiMapImpl` generations (`ClientStringMultiMapImpl`, `LegacyStringMultiMapImpl`) wrap a Vert.x case-insensitive multimap (`VertxMultiMap`).
  - `CommonStringMultiMap` holds the `common.StringMultiMap` companion and its extensions.
  - The legacy `Headers`, a case-insensitive `TreeMap` (`CaseInsensitiveTreeMap`, `LegacyHttpUtils`).
  - The legacy `Parameters`, a case-sensitive map from a name to its list of values (`Domain`).
- **Request builders** in both generations (`CommonHttpRequest`, `LegacyHttpRequest`, `Domain`). Each builder's contract says which field changes and that every other field stays as it was.
- **`findName`** and the parameter-naming loop of the mock generator (`MockGenerator`), including the pigeonhole bound that makes the search stop.

The repository mixes two code generations that do not compile together: package `io.kvarto.http`, and packages `io.kvarto.http.common`/`client`/`utils`. Each Kotlin file gets its own module, and the types of the two generations are kept apart.

Modelling assumptions:

- **Case-insensitive names use ASCII folding only.** This applies to both the Vert.x multimap and `String.CASE_INSENSITIVE_ORDER`. Only `A`–`Z` fold to `a`–`z`.
- **Vert.x `MultiMap` is an ordered list of entries.** `get` answers the first matching value and `getAll` every matching value in insertion order.
- **A `Flow<ByteArray>` is the finite list of chunks it emits.** Kotlin `ByteArray` bytes are signed (`-128..127`).
- **A Kotlin `Map` argument whose iteration order matters is given as its entry list in iteration order.** This applies to `toCaseInsensitiveMap`, `Headers(...)`, `addAll(Map)` and `toMultiMap`. For `Parameters.of` the order does not matter, so it takes a Dafny `map`.
- **Durations are whole milliseconds.** `2.seconds` is 2000.
- **Things kept abstract:**
  - The JVM exception hierarchy becomes the `Throwable` datatype. A subclass of `IOException` (for example) is given as `IOException`.
  - URL resolution is a function parameter.
  - The charset decoder of `asString` is a function parameter. The lemmas instantiate it with an ASCII decoder.
  - The default `SUCCESS_STATUSES` set is a parameter, because its declaration is not part of this model.
- **Interface names mapped to implementation names.** The client implementation declares no `plus` or `entries()`. The `common.StringMultiMap` interface's `plus(list)` and `entries()` are therefore modelled as that implementation's `addAll(list)` and `values()`.

The Fibonacci strategy's `fib(n)` is 1 for `n < 2`; otherwise its loop runs `n - 1` times. This gives 1, 1, 2, 3, 5, 8 for n = 0..5, so `fib(2)` is 2, as `RetryUtilsTest.kt:126-127` expects (delays 10, 20, 30, 50, 80 ms for a 10 ms base).

## Model

| member | source | states |
|---|---|---|
| RetryUtils.IsRetryable | src/main/kotlin/io/kvarto/http/common/RetryUtils.kt:28-35 | IOException, TimeoutException and RetriesLimitReachedException are retryable; a VertxException is retryable exactly when its message (empty if null) contains "timeout"; every other error is not |
| RetryUtils.Fib | src/main/kotlin/io/kvarto/http/common/RetryUtils.kt:60-70 | the two-variable loop computes the series 1, 1, 2, 3, 5, ... defined by its recurrence, for every n |
| RetryUtils.DelayBeforeRetry | src/main/kotlin/io/kvarto/http/common/RetryUtils.kt:44-75 | a constant strategy answers its duration, NO_BACKOFF zero and any other strategy its own answer; for a non-negative base (and a multiplier of at least 1) the exponential and Fibonacci delays are never below the base |
| RetryUtils.DefaultConfig | src/main/kotlin/io/kvarto/http/common/RetryUtils.kt:37-42 | `RetryConfig(retries)` keeps the count, waits zero before every retry, has a total timeout of `Long.MAX_VALUE` ms and classifies errors with the default `isRetryable` |
| RetryUtils.DefaultConfigRethrowsOtherErrors | src/main/kotlin/io/kvarto/http/common/RetryUtils.kt:37-42 | with the defaults, an error the default classifier rejects is rethrown unchanged after one call, as the `RetryConfig(10)` test expects |
| RetryUtils.DefaultConfigRetriesIOFailuresWithoutDelay | src/main/kotlin/io/kvarto/http/common/RetryUtils.kt:37-42 | with the defaults, `IOException`s are retried with a zero delay each until `retries + 1` calls, then RetriesLimitReachedException wraps the last one |
| RetryUtils.RetryInner | src/main/kotlin/io/kvarto/http/common/RetryUtils.kt:14-23 | from try `tryNumber`: calls made stay within `retries + 1`; every call before the last failed retryably; the last call decides the outcome (value returned, unretryable error rethrown, or RetriesLimitReachedException on the last permitted call); retry numbers `tryNumber+1, ...` one per retry, with the strategy's delay for each |
| RetryUtils.Retry | src/main/kotlin/io/kvarto/http/common/RetryUtils.kt:11-23 | at least one and at most `retries + 1` calls; all but the last failed retryably; the last decides the outcome; the backoff is asked about retry numbers 1, 2, ..., calls-1 in order, never after the final call |
| RetryUtils.RetryFirstCallReturns | src/main/kotlin/io/kvarto/http/common/RetryUtils.kt:14-16 | a first call that returns gives its value after one call with no backoff |
| RetryUtils.RetryRethrowsUnretryable | src/main/kotlin/io/kvarto/http/common/RetryUtils.kt:17-18 | with `retries == 0` or an error the predicate rejects, the original error is rethrown after one call with no backoff |
| RetryUtils.RetryExhaustsRetries | src/main/kotlin/io/kvarto/http/common/RetryUtils.kt:17-22 | always failing retryably: exactly `retries + 1` calls, RetriesLimitReachedException caused by the last failure, retry numbers 1..retries |
| RetryUtils.RetryReturnsFirstValue | src/main/kotlin/io/kvarto/http/common/RetryUtils.kt:14-22 | if call k is the first to return after retryable failures, the result is its value after exactly k calls with retry numbers 1..k-1 |
| RetryUtils.RetryErrorExposesLastCause | src/main/kotlin/io/kvarto/http/common/RetryUtils.kt:18-19 | any error the run ends with is the last call's error or RetriesLimitReachedException wrapping it |
| RetryUtils.NoRetryCallsOnce | src/main/kotlin/io/kvarto/http/common/RetryUtils.kt:77 | under NO_RETRY the operation runs once and its outcome is reported unchanged |
| RetryUtils.ConstantBackoffIgnoresRetryNumber | src/main/kotlin/io/kvarto/http/common/RetryUtils.kt:48-50 | the constant strategy answers its duration for every retry number, 0 included |
| RetryUtils.NoBackoffIsZero | src/main/kotlin/io/kvarto/http/common/RetryUtils.kt:73-75 | NO_BACKOFF answers zero for every retry number |
| RetryUtils.ExponentialBackoffGrowth | src/main/kotlin/io/kvarto/http/common/RetryUtils.kt:52-55 | the exponential delay is the base at retry 1 and multiplies by the multiplier per retry; the source agrees at least while `timeout * multiplier^n` stays within 2^53, below any rounding or saturation of its double arithmetic |
| RetryUtils.ExponentialBackoffExample | src/main/kotlin/io/kvarto/http/common/RetryUtils.kt:52-55 | base 10 ms, multiplier 3: 10, 30, 90, 270 ms for retries 1 to 4 |
| RetryUtils.FibonacciBackoffRecurrence | src/main/kotlin/io/kvarto/http/common/RetryUtils.kt:57-70 | the Fibonacci delay is base, 2·base, then each the sum of the previous two |
| RetryUtils.RetryBackoffSequenceExample | src/main/kotlin/io/kvarto/http/common/RetryUtils.kt:19-20 | three retryable failures then a value: 4 calls, retry numbers 1, 2, 3 and delays 25, 50, 75 ms from a `25 * n` strategy |
| Text.ContainsSubstring | src/main/kotlin/io/kvarto/http/common/RetryUtils.kt:33 | `sub in s` holds exactly when `sub` occurs at some index of `s` |
| Text.LessIgnoreCaseIsStrictOrder | src/main/kotlin/io/kvarto/http/utils.kt:8 | the case-insensitive order is irreflexive, asymmetric, transitive and total up to case folding |
| Text.EqualsIgnoreCaseIsEquivalence | src/main/kotlin/io/kvarto/http/client/impl/StringMultiMapImpl.kt:8 | equality ignoring case is reflexive, symmetric and transitive |
| Text.NatToString | src/main/kotlin/io/kvarto/mock/MockGenerator.kt:62 | the decimal rendering of a counter is a non-empty string of digits |
| Text.ParseDecimalInvertsNatToString | src/main/kotlin/io/kvarto/mock/MockGenerator.kt:62 | reading a rendered counter back gives the counter |
| Text.NatToStringInjective | src/main/kotlin/io/kvarto/mock/MockGenerator.kt:62 | distinct counters render to distinct strings |
| Chunks.Put | src/main/kotlin/io/kvarto/utils/Utils.kt:44 | `put` succeeds exactly when the chunk fits the remaining space and then appends it; otherwise BufferOverflowException |
| Chunks.Collect | src/main/kotlin/io/kvarto/utils/Utils.kt:43-46 | collecting succeeds exactly when everything fits and yields what was written followed by all chunks in order; otherwise BufferOverflowException |
| Chunks.DrainIntoBuffer | src/main/kotlin/io/kvarto/utils/Utils.kt:42-46 | draining into a fresh 4096-byte buffer succeeds exactly when the chunks total at most 4096 bytes, yielding their concatenation of that length |
| Chunks.Utf8EncodeChar | src/main/kotlin/io/kvarto/http/common/Body.kt:12 | one to four bytes per character; exactly one, its code, for ASCII |
| Chunks.Utf8EncodeAscii | src/main/kotlin/io/kvarto/http/common/Body.kt:12 | ASCII text encodes to its character codes, one byte each |
| Chunks.AsciiRoundTrip | src/main/kotlin/io/kvarto/http/common/Body.kt:12 | decoding the encoding of ASCII text gives the text |
| Utils.AsBytes | src/main/kotlin/io/kvarto/utils/Utils.kt:36-48 | empty body: no bytes; byte-array body: its bytes at any length; flow body: succeeds exactly within 4096 bytes with the chunks' concatenation, else BufferOverflowException |
| Utils.AsFlow | src/main/kotlin/io/kvarto/utils/Utils.kt:50-56 | no chunks, exactly the one chunk `[v]`, or the flow's own chunks |
| Utils.AsString | src/main/kotlin/io/kvarto/utils/Utils.kt:60 | succeeds exactly when `asBytes` does, with the decoding of its bytes |
| Utils.AsBytesFlattensAsFlow | src/main/kotlin/io/kvarto/utils/Utils.kt:36-56 | whenever `asBytes` succeeds it equals the concatenation of the chunks `asFlow` yields |
| Utils.AsBytesFailsOnlyWhenFlowOverflows | src/main/kotlin/io/kvarto/utils/Utils.kt:41-47 | `asBytes` fails exactly for a flow body of more than 4096 bytes |
| Utils.AsBytesFlowExample | src/main/kotlin/io/kvarto/utils/Utils.kt:41-47 | chunks [65, 66] and [67] collect to 65, 66, 67 |
| Utils.AsStringAsciiExample | src/main/kotlin/io/kvarto/utils/Utils.kt:60 | bytes 65, 66, 67 read as "ABC" |
| VertxUtils.AsFlow | src/main/kotlin/io/kvarto/http/common/VertxUtils.kt:138-144 | the chunks carry exactly the body's bytes; one chunk for a byte array, none for the empty body |
| VertxUtils.AsBytes | src/main/kotlin/io/kvarto/http/common/VertxUtils.kt:124-136 | fails (BufferOverflowException) exactly for a flow of more than 4096 bytes; otherwise the concatenation of what `asFlow` yields |
| VertxUtils.AsString | src/main/kotlin/io/kvarto/http/common/VertxUtils.kt:148 | fails exactly when `asBytes` does; otherwise the decoding of the `asFlow` bytes |
| VertxUtils.CopiesAgree | src/main/kotlin/io/kvarto/http/common/VertxUtils.kt:124-148 | this copy and the `io.kvarto.utils` copy agree on every body |
| VertxUtils.ByteArrayBodyIsNotCapped | src/main/kotlin/io/kvarto/http/common/VertxUtils.kt:124-127 | a byte-array body longer than 4096 bytes is still returned whole |
| CommonBody.FromString | src/main/kotlin/io/kvarto/http/common/Body.kt:12 | one chunk, the UTF-8 encoding; for ASCII as many bytes as characters |
| CommonBody.FromBytes | src/main/kotlin/io/kvarto/http/common/Body.kt:14 | one chunk carrying exactly the bytes |
| CommonBody.FromFlow | src/main/kotlin/io/kvarto/http/common/Body.kt:16 | the given chunks, unchanged and in order |
| CommonBody.FromFlowOfContent | src/main/kotlin/io/kvarto/http/common/Body.kt:10-16 | every body is `Body(flow)` of its own content; EMPTY carries no bytes |
| CommonBody.FromStringRoundTrip | src/main/kotlin/io/kvarto/http/common/Body.kt:12 | the bytes of `Body(s)` for ASCII `s` decode back to `s` |
| VertxMultiMap.Get | src/main/kotlin/io/kvarto/http/client/impl/StringMultiMapImpl.kt:11 | null exactly when no name matches ignoring case; otherwise the value of the first matching entry |
| VertxMultiMap.GetAll | src/main/kotlin/io/kvarto/http/client/impl/StringMultiMapImpl.kt:13 | never more values than entries |
| VertxMultiMap.ValuesNamedMembers | src/main/kotlin/io/kvarto/http/client/impl/StringMultiMapImpl.kt:13 | a value is listed exactly when some entry carries it under a matching name |
| VertxMultiMap.GetIsFirstOfGetAll | src/main/kotlin/io/kvarto/http/client/impl/StringMultiMapImpl.kt:11-13 | `get` is the first value `getAll` lists, null when it lists none |
| VertxMultiMap.Add | src/main/kotlin/io/kvarto/http/client/impl/StringMultiMapImpl.kt:20 | the old entries are kept as a prefix and (name, value) follows them |
| VertxMultiMap.AddAll | src/main/kotlin/io/kvarto/http/client/impl/StringMultiMapImpl.kt:19 | the old entries followed by the given ones |
| VertxMultiMap.AddEach | src/main/kotlin/io/kvarto/http/client/impl/StringMultiMapImpl.kt:25-27 | adding the pairs one at a time equals one bulk `addAll` |
| VertxMultiMap.GetAllAfterAdd | src/main/kotlin/io/kvarto/http/client/impl/StringMultiMapImpl.kt:17-21 | after `add`, `getAll` gains the value last exactly for names matching the added one |
| VertxMultiMap.GetAllAfterAddAll | src/main/kotlin/io/kvarto/http/impl/StringMultiMapImpl.kt:30-34 | after `addAll`, `getAll` lists the old values then the matching added ones in order |
| ClientStringMultiMapImpl.Get | src/main/kotlin/io/kvarto/http/client/impl/StringMultiMapImpl.kt:11 | null exactly when no entry's name matches ignoring case; otherwise the first value `getAll` lists |
| ClientStringMultiMapImpl.Values | src/main/kotlin/io/kvarto/http/client/impl/StringMultiMapImpl.kt:15 | every entry `values()` lists is found by `getAll` under its own name |
| ClientStringMultiMapImpl.GetAll | src/main/kotlin/io/kvarto/http/client/impl/StringMultiMapImpl.kt:13 | lists exactly the values of entries whose name matches ignoring case |
| ClientStringMultiMapImpl.Add | src/main/kotlin/io/kvarto/http/client/impl/StringMultiMapImpl.kt:17-21 | the new map's entries are the receiver's followed by (name, value) |
| ClientStringMultiMapImpl.AddAll | src/main/kotlin/io/kvarto/http/client/impl/StringMultiMapImpl.kt:23-29 | the new map's entries are the receiver's followed by the pairs in list order |
| ClientStringMultiMapImpl.LookupAfterAdd | src/main/kotlin/io/kvarto/http/client/impl/StringMultiMapImpl.kt:11-21 | after `add`, `getAll` gains the value last for matching names only; `get` keeps an existing answer and otherwise answers the new value |
| ClientStringMultiMapImpl.ToString | src/main/kotlin/io/kvarto/http/client/impl/StringMultiMapImpl.kt:31-45 | the loop produces `{`, the entries rendered `"n": "v"` joined by ", " with none trailing, then `}` |
| ClientStringMultiMapImpl.RenderAppend | src/main/kotlin/io/kvarto/http/client/impl/StringMultiMapImpl.kt:33-44 | rendering two runs of entries joins their renderings with exactly one separator |
| ClientStringMultiMapImpl.RenderExamples | src/main/kotlin/io/kvarto/http/client/impl/StringMultiMapImpl.kt:31-45 | the empty map renders `{}`, one entry `{"n": "v"}` |
| CommonStringMultiMap.Plus | src/main/kotlin/io/kvarto/http/common/StringMultiMap.kt:14 | `m + list` holds m's entries followed by the list |
| CommonStringMultiMap.Of | src/main/kotlin/io/kvarto/http/common/StringMultiMap.kt:19 | `of(list)` holds exactly the list's pairs in order |
| CommonStringMultiMap.ToMultiMap | src/main/kotlin/io/kvarto/http/common/StringMultiMap.kt:23 | `toMultiMap` holds exactly the map's entries in iteration order |
| CommonStringMultiMap.PlusMap | src/main/kotlin/io/kvarto/http/common/StringMultiMap.kt:25 | `m + map` holds m's entries followed by the map's |
| CommonStringMultiMap.PlusMultiMap | src/main/kotlin/io/kvarto/http/common/StringMultiMap.kt:27 | `m + other` holds m's entries followed by other's |
| CommonStringMultiMap.Contains | src/main/kotlin/io/kvarto/http/common/StringMultiMap.kt:29 | `key in m` exactly when some entry's name equals the key ignoring case |
| CommonStringMultiMap.PlusVariantsAgree | src/main/kotlin/io/kvarto/http/common/StringMultiMap.kt:19-27 | `m + map` is `m + map.toList()`, `m + other` is `m + other.entries()`, `toMultiMap` is `of` |
| CommonStringMultiMap.ContainsAfterPlus | src/main/kotlin/io/kvarto/http/common/StringMultiMap.kt:29 | after `m + list` a key is contained exactly when it was in m or some added pair carries it |
| LegacyStringMultiMapImpl.Values | src/main/kotlin/io/kvarto/http/impl/StringMultiMapImpl.kt:14 | every entry `values()` lists is found by `getAll` under its own name |
| LegacyStringMultiMapImpl.Get | src/main/kotlin/io/kvarto/http/impl/StringMultiMapImpl.kt:10 | `get` is the first value `getAll` lists, null when none |
| LegacyStringMultiMapImpl.GetAll | src/main/kotlin/io/kvarto/http/impl/StringMultiMapImpl.kt:12 | lists exactly the values of entries whose name matches ignoring case |
| LegacyStringMultiMapImpl.Add | src/main/kotlin/io/kvarto/http/impl/StringMultiMapImpl.kt:16-20 | the receiver's entries followed by (name, value) |
| LegacyStringMultiMapImpl.AddAllList | src/main/kotlin/io/kvarto/http/impl/StringMultiMapImpl.kt:22-28 | the receiver's entries followed by the pairs in list order |
| LegacyStringMultiMapImpl.AddAllMap | src/main/kotlin/io/kvarto/http/impl/StringMultiMapImpl.kt:30-34 | the receiver's entries followed by the map's entries |
| LegacyStringMultiMapImpl.AddAllMultiMap | src/main/kotlin/io/kvarto/http/impl/StringMultiMapImpl.kt:36 | the receiver's entries followed by the other multimap's |
| LegacyStringMultiMapImpl.AddAllMapIsAddAllList | src/main/kotlin/io/kvarto/http/impl/StringMultiMapImpl.kt:22-34 | adding a map's entries or the same pairs as a list gives the same multimap |
| LegacyStringMultiMapImpl.GetAllAfterAddAll | src/main/kotlin/io/kvarto/http/impl/StringMultiMapImpl.kt:22-28 | after `addAll`, `getAll` lists the old values then the matching added values in order |
| LegacyStringMultiMapImpl.LookupIgnoresCase | src/main/kotlin/io/kvarto/http/impl/StringMultiMapImpl.kt:8-12 | names equal ignoring case get the same answers from `get` and `getAll` |
| CaseInsensitiveTreeMap.Get | src/main/kotlin/io/kvarto/http/domain.kt:33 | `TreeMap.get` under the case-insensitive order; its meaning is stated by GetFindsStoredEntry on the next row |
| CaseInsensitiveTreeMap.GetFindsStoredEntry | src/main/kotlin/io/kvarto/http/domain.kt:33 | `get` answers null exactly when no stored key equals the query ignoring case, otherwise that entry's value |
| CaseInsensitiveTreeMap.GetIgnoresCase | src/main/kotlin/io/kvarto/http/domain.kt:33 | keys equal ignoring case find the same value |
| CaseInsensitiveTreeMap.SortedKeysDistinct | src/main/kotlin/io/kvarto/http/utils.kt:8 | no two stored keys are equal ignoring case |
| CaseInsensitiveTreeMap.Put | src/main/kotlin/io/kvarto/http/domain.kt:36 | the result stays sorted, holds no key but the old ones and `key`, and grows by at most one entry |
| CaseInsensitiveTreeMap.PutSpec | src/main/kotlin/io/kvarto/http/domain.kt:36 | after `put` the key finds the value; keys not equal to it ignoring case find what they did; an existing key keeps its spelling and the size, a new key adds exactly one entry |
| CaseInsensitiveTreeMap.PutAll | src/main/kotlin/io/kvarto/http/utils.kt:8 | no more entries than before plus the pairs; no key that neither held |
| CaseInsensitiveTreeMap.GetAfterPutAll | src/main/kotlin/io/kvarto/http/utils.kt:8 | after `putAll` a key finds the last pair put under it ignoring case, or what the map held |
| CaseInsensitiveTreeMap.PutAbove | src/main/kotlin/io/kvarto/http/utils.kt:8 | a key above every stored key is put at the end |
| CaseInsensitiveTreeMap.PutAllOfSorted | src/main/kotlin/io/kvarto/http/utils.kt:8 | putting a sorted map's entries into an empty map in order rebuilds the same map |
| CaseInsensitiveTreeMap.LastValueForFinds | src/main/kotlin/io/kvarto/http/utils.kt:8 | the last matching pair is found exactly when some pair matches, and no later pair matches |
| LegacyHttpUtils.ToCaseInsensitiveMap | src/main/kotlin/io/kvarto/http/utils.kt:7-8 | at most as many entries as input pairs, only input keys, no two keys equal ignoring case |
| LegacyHttpUtils.GetIsLastValue | src/main/kotlin/io/kvarto/http/utils.kt:7-8 | a lookup answers the value of the last input pair whose key equals the query ignoring case |
| LegacyHttpUtils.LookupIgnoresCase | src/main/kotlin/io/kvarto/http/utils.kt:7-8 | lookups of keys equal ignoring case agree |
| LegacyHttpUtils.FindsEveryInputKey | src/main/kotlin/io/kvarto/http/utils.kt:7-8 | every input key is found; one no other input key equals ignoring case finds its own value |
| LegacyHttpUtils.CopyIsIdentity | src/main/kotlin/io/kvarto/http/utils.kt:7-8 | converting a case-insensitive map again gives the same map |
| LegacyBodyUtils.AsBytes | src/main/kotlin/io/kvarto/http/Utils.kt:15-21 | succeeds exactly when the content totals at most 4096 bytes, with the chunks' concatenation; otherwise BufferOverflowException |
| LegacyBodyUtils.AsString | src/main/kotlin/io/kvarto/http/Utils.kt:23 | succeeds exactly when `asBytes` does, with the decoding of the bytes |
| LegacyBodyUtils.AsBytesOfConstructors | src/main/kotlin/io/kvarto/http/Utils.kt:15-21 | the empty body gives no bytes; `Body(bytes)` gives its bytes exactly when they fit 4096 bytes |
| LegacyBodyUtils.AsStringOfAsciiString | src/main/kotlin/io/kvarto/http/Utils.kt:23 | an ASCII string body within the buffer reads back as the string |
| Domain.NewHeaders | src/main/kotlin/io/kvarto/http/domain.kt:30-31 | every lookup answers the last value given under a name equal ignoring case; no more entries than given |
| Domain.AddHeader | src/main/kotlin/io/kvarto/http/domain.kt:35-36 | the data is the receiver's with the name put; the name answers the value and other names answer what they did |
| Domain.HeaderValue | src/main/kotlin/io/kvarto/http/domain.kt:33 | `headers[name]` is null exactly when no stored name equals `name` ignoring case, otherwise the value stored under such a name |
| Domain.HeaderLookupIgnoresCase | src/main/kotlin/io/kvarto/http/domain.kt:33-36 | lookups ignore case, and after `add` every spelling of the name finds the new value |
| Domain.ParameterValue | src/main/kotlin/io/kvarto/http/domain.kt:44 | NoSuchElementException exactly for a name listed with no values; null exactly for an absent name |
| Domain.AddParameter | src/main/kotlin/io/kvarto/http/domain.kt:46-47 | the name's list is its old list (or none) with the value appended; other names keep their lists |
| Domain.ParametersOf | src/main/kotlin/io/kvarto/http/domain.kt:51 | the same names as the map, each with a non-empty list |
| Domain.ParameterValueAfterAdd | src/main/kotlin/io/kvarto/http/domain.kt:44-47 | after `add` the name answers the new value; other names answer as before |
| Domain.ParameterValueOfMap | src/main/kotlin/io/kvarto/http/domain.kt:44-51 | `of(map)` answers each key's value and null for other names |
| Domain.AddKeepsWellFormed | src/main/kotlin/io/kvarto/http/domain.kt:44-51 | `add` keeps every list non-empty, and then `get` never throws |
| Domain.BodyOfString | src/main/kotlin/io/kvarto/http/domain.kt:59-61 | one chunk carrying the string's UTF-8 encoding |
| Domain.BodyOfBytes | src/main/kotlin/io/kvarto/http/domain.kt:62-64 | one chunk carrying the bytes |
| Domain.NewRequest | src/main/kotlin/io/kvarto/http/domain.kt:7-15 | defaults: GET, no headers, no parameters, no body, no operation id, the default success statuses |
| Domain.RequestAddParameter | src/main/kotlin/io/kvarto/http/domain.kt:16 | the name now answers the value, other parameters and every other field are unchanged |
| Domain.RequestAddHeader | src/main/kotlin/io/kvarto/http/domain.kt:18 | the name now answers the value, other headers and every other field are unchanged |
| Domain.RequestWithPath | src/main/kotlin/io/kvarto/http/domain.kt:20 | only the URL changes, to the resolved one |
| CommonHttpRequest.EmptyMetadata | src/main/kotlin/io/kvarto/http/client/RequestMetadata.kt:8-16 | no operation id, 2000 ms timeout, no retries with no backoff, the default success statuses |
| CommonHttpRequest.NewRequest | src/main/kotlin/io/kvarto/http/common/HttpRequest.kt:8-15 | defaults: GET, no headers, no parameters, empty body, empty metadata |
| CommonHttpRequest.WithPath | src/main/kotlin/io/kvarto/http/common/HttpRequest.kt:16 | only the URL changes, to the resolved one |
| CommonHttpRequest.WithMethod | src/main/kotlin/io/kvarto/http/common/HttpRequest.kt:18 | only the method changes |
| CommonHttpRequest.AddParameter | src/main/kotlin/io/kvarto/http/common/HttpRequest.kt:20 | only the parameters change, gaining (name, value) at the end |
| CommonHttpRequest.AddHeader | src/main/kotlin/io/kvarto/http/common/HttpRequest.kt:22 | only the headers change, gaining (name, value) at the end |
| CommonHttpRequest.WithBody | src/main/kotlin/io/kvarto/http/common/HttpRequest.kt:24 | only the body changes |
| CommonHttpRequest.WithMetadata | src/main/kotlin/io/kvarto/http/common/HttpRequest.kt:26 | only the metadata changes, replaced whole |
| CommonHttpRequest.WithSuccessStatuses | src/main/kotlin/io/kvarto/http/common/HttpRequest.kt:28-29 | only the metadata's success statuses change; operation id, timeout, retry and all request fields are kept |
| CommonHttpRequest.WithTimeout | src/main/kotlin/io/kvarto/http/common/HttpRequest.kt:31 | only the metadata's timeout changes |
| CommonHttpRequest.BuildersCommuteAndOverride | src/main/kotlin/io/kvarto/http/common/HttpRequest.kt:18-31 | a second `withMethod`/`withTimeout` overrides the first; builders of different fields commute |
| CommonHttpRequest.ParameterLookupAfterAdd | src/main/kotlin/io/kvarto/http/common/HttpRequest.kt:20 | after `addParameter`, `getAll` lists the new value last for matching names only |
| LegacyHttpRequest.NoBackoff | src/main/kotlin/io/kvarto/http/HttpRequest.kt:44-46 | zero delay for every round |
| LegacyHttpRequest.NoRetry | src/main/kotlin/io/kvarto/http/HttpRequest.kt:47 | no retries, zero backoff, `Long.MAX_VALUE` ms total timeout, no error retriable |
| LegacyHttpRequest.EmptyContext | src/main/kotlin/io/kvarto/http/HttpRequest.kt:26-35 | no operation id, 2000 ms timeout, NO_RETRY, the default success statuses |
| LegacyHttpRequest.NewRequest | src/main/kotlin/io/kvarto/http/HttpRequest.kt:8-14 | defaults: GET, no headers, no query parameters, the empty body |
| LegacyHttpRequest.WithPath | src/main/kotlin/io/kvarto/http/HttpRequest.kt:15 | only the URL changes, to the resolved one |
| LegacyHttpRequest.WithMethod | src/main/kotlin/io/kvarto/http/HttpRequest.kt:17 | only the method changes |
| LegacyHttpRequest.AddQueryParam | src/main/kotlin/io/kvarto/http/HttpRequest.kt:19 | only the query parameters change, gaining (name, value) at the end |
| LegacyHttpRequest.AddHeader | src/main/kotlin/io/kvarto/http/HttpRequest.kt:21 | only the headers change, gaining (name, value) at the end |
| LegacyHttpRequest.WithBody | src/main/kotlin/io/kvarto/http/HttpRequest.kt:23 | only the body changes |
| LegacyHttpRequest.AddQueryParamsInOrder | src/main/kotlin/io/kvarto/http/HttpRequest.kt:19 | repeated `addQueryParam` appends the pairs in call order |
| MockGenerator.CandidatesDistinct | src/main/kotlin/io/kvarto/mock/MockGenerator.kt:62 | different attempts try different names |
| MockGenerator.CandidateCount | src/main/kotlin/io/kvarto/mock/MockGenerator.kt:62 | the first k attempts try k distinct names |
| MockGenerator.FindName | src/main/kotlin/io/kvarto/mock/MockGenerator.kt:61-62 | the name is not taken; it is the original name when that is free; otherwise the first free `name` + k, every earlier attempt taken, with k at most the number of taken names; it starts with the original name |
| MockGenerator.ChooseParamNames | src/main/kotlin/io/kvarto/mock/MockGenerator.kt:35-38 | one name per member, pairwise distinct, each starting with its member's name, and equal to it unless an earlier member took it |

## Left out

- Stream bridging (`writeTo`, `waitTillWritable`, `toFlow`, `toChannel`, `FlowWriteStream`, `toReadStream`, `BufferReadStream`, `writeAwait`): concurrency and back-pressure over Vert.x buffers and channels, with no sequential contract.
- Both `VertxHttpClient` classes, `HttpApi`, metrics, tracing and server start-up: network I/O and framework glue.
- RetryUtils.Retry: `totalTimeout` is stored but never read by `retry`, and the suspension in `delay` is not modelled; only the requested delays are.
- RetryUtils.Retry: requires `retries >= 0` (with a negative count the limit test `tryNumber == retries` does not fire before the `Int` counter `tryNumber` overflows, about 2^32 calls later) and a script long enough for every call that can happen.
- RetryUtils.DelayBeforeRetry: the exponential strategy's `Math.pow` on doubles and the `toLong` saturation are replaced by an exact integer power, defined only for retry numbers from 1 (the engine only asks from 1). The model agrees with the source at least while `timeout * multiplier^(n-1)` stays within 2^53. Beyond that the double product may round, and above `Long.MAX_VALUE` the source saturates: with a 1 ms base and multiplier 2, retries 64 and 65 both give `Long.MAX_VALUE` ms, where the model gives 2^63 and 2^64.
- RetryUtils.Fib: unbounded integers; the Kotlin `Int` wraps for `n >= 46`.
- `JsonBody`, `parse` and Jackson serialisation: foreign serialisation; `asBytes`/`asFlow` of a JSON body are not modelled.
- Charset decoding in `asString`: the decoder is a parameter, instantiated with ASCII in the lemmas; only UTF-8 encoding is modelled concretely.
- URL resolution (`URL.resolve`, `withPath` in `utils.kt`, `buildUri`): URLs are opaque and resolution is a function parameter.
- Duration helpers (`millis`, `seconds`, ...): durations are integer milliseconds.
- `generateMocks`, the rest of `generateMock`, `hackRenderer`: reflection and printing.
- MockGenerator.FindName: the Kotlin search range ends at `Int.MAX_VALUE`; the model's counter is unbounded, and is at most the number of taken names.
- `FlowBodyImpl`'s content length and `toString`, `HttpResponse`, `SecurityManager`, the `HttpClient` interfaces, and `http/StringMultiMap.kt`'s `toMultiMap`: data-only or interface-only.
- `SUCCESS_STATUSES` and `HttpStatus` are not part of this model; the default set of success statuses is a parameter.
- Case folding beyond ASCII: the JVM's `equalsIgnoreCase`/`CASE_INSENSITIVE_ORDER` also fold non-ASCII letters; the model folds `A`–`Z` only.
- TreeMap iteration order of `Headers`: the entries are kept sorted, but nothing in the core iterates them.
