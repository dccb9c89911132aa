/** What every dataset provider does over HTTP (providers/base.cpp). */
module Provider {
  import opened Wrappers
  import opened Text
  import opened Http
  import opened PartialMetadata

  /** HEAD statuses after which the download goes on without metadata. */
  predicate ContinuesWithoutHead(status: int) {
    status == 403 || status == 405 || status == 408 || status == 429 ||
    status == 500 || status == 501 || status == 502 || status == 503 || status == 504
  }

  datatype HeadOutcome = HeadNetworkError | HeadAnswered(response: Response)

  datatype Fetched = Metadata(remote: Remote) | HeadRejected(error: Failure)

  const NOTHING_KNOWN := Remote(None, None, None, None)

  function RemoteFromHeaders(h: Headers): Remote {
    Remote(
      if "content-length" in h then ParseUint(h["content-length"]) else None,
      if "accept-ranges" in h then Some(ToLower(h["accept-ranges"]) == "bytes") else None,
      Header(h, "etag"),
      Header(h, "last-modified"))
  }

  /** fetch_remote_metadata */
  function FetchMetadata(head: HeadOutcome): Fetched {
    match head
    case HeadNetworkError => Metadata(NOTHING_KNOWN)
    case HeadAnswered(response) =>
      if ContinuesWithoutHead(response.status) then Metadata(NOTHING_KNOWN)
      else if response.status >= 400 then
        HeadRejected(HttpStatusError(response.status, RetryAfterSeconds(response.headers)))
      else Metadata(RemoteFromHeaders(response.headers))
  }

  /** The range part of a download request: where it starts and under which validator. */
  datatype Request = Request(start: nat, ifRange: Option<string>)

  predicate SendsRange(r: Request) {
    r.start > 0
  }

  /** build_download_headers: the header lines are appended one by one. */
  function DownloadHeaders(r: Request): seq<string> {
    ["Accept-Encoding: identity"]
    + (if r.start == 0 then [] else ["Range: bytes=" + Decimal(r.start) + "-"])
    + (if r.start == 0 || r.ifRange.None? then [] else ["If-Range: " + r.ifRange.value])
  }
}
