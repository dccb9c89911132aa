/** The parts of an HTTP exchange that the download engine sees (http_client.hpp, http_client.cpp). */
module Http {
  import opened Wrappers
  import opened Text

  /** Header fields by lower-case name. */
  type Headers = map<string, string>

  datatype Response = Response(status: int, headers: Headers)

  /** The exceptions an attempt can end with, told apart as far as the retry loop tells them apart. */
  datatype Failure =
    | IntegrityError
    | PayloadError
    | HttpStatusError(status: int, retryAfter: Option<nat>)
    | NetworkError(code: int)
    | OtherError

  function Header(h: Headers, name: string): Option<string> {
    if name in h then Some(h[name]) else None
  }

  const MAX_RETRY_AFTER_SECONDS := 300

  /** parse_retry_after_seconds: whole seconds only, capped at five minutes. */
  function RetryAfterSeconds(h: Headers): (r: Option<nat>)
    ensures r.Some? ==> r.value <= MAX_RETRY_AFTER_SECONDS
  {
    match Header(h, "retry-after")
    case None => None
    case Some(text) =>
      match ParseUint(text)
      case None => None
      case Some(n) => Some(if n < MAX_RETRY_AFTER_SECONDS then n else MAX_RETRY_AFTER_SECONDS)
  }
}
