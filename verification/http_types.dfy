/**
 * The plain values requests carry: the `HttpMethod` enum (declared alike in
 * both packages), an HTTP status, and a URL kept opaque. `HttpStatus` and the
 * default set of success statuses are declared outside the modelled files;
 * a status is its numeric code here.
 */
module HttpTypes {
  datatype HttpMethod = GET | HEAD | POST | PUT | DELETE | CONNECT | OPTIONS | TRACE | PATCH

  datatype HttpStatus = HttpStatus(code: int)

  /** A URL, compared only for equality; resolution against a path is a parameter wherever it happens. */
  datatype Url = Url(spec: string)
}
