/**
 The server a download faces: a growing list of versions of one file, and what following RFC 9110 means for
 its answers.
 */
module Server {
  import opened Wrappers
  import opened Text
  import opened Http
  import opened ContentRange
  import opened PartialMetadata
  import opened FileSystem
  import opened Provider
  import opened Transfer
  import opened TransferProperties

  datatype Version = Version(content: Bytes, etag: Option<string>, lastModified: Option<string>)

  /** Every version the file has had or will have, oldest first. */
  type Versions = seq<Version>

  function ValidatorSet(s: Option<string>): set<string> {
    if IsNonBlank(s) then {Trim(s.value)} else {}
  }

  function Validators(v: Version): set<string> {
    ValidatorSet(v.etag) + ValidatorSet(v.lastModified)
  }

  /** A validator is never used for two versions, so the server never returns to an old one. */
  ghost predicate NeverReusesValidators(sv: Versions) {
    forall i, j | 0 <= i < j < |sv| :: Validators(sv[i]) !! Validators(sv[j])
  }

  /** Metadata that, as far as it goes, is that of one version. */
  ghost predicate Describes(remote: Remote, v: Version) {
    && (remote.length.Some? ==> remote.length.value == |v.content|)
    && (remote.etag.Some? ==> remote.etag == v.etag)
    && (remote.lastModified.Some? ==> remote.lastModified == v.lastModified)
  }

  ghost predicate TruthfulHead(v: Version, head: HeadOutcome) {
    FetchMetadata(head).Metadata? ==> Describes(FetchMetadata(head).remote, v)
  }

  /** Section 14.4 of RFC 9110: the range names bytes of the current version, and the body is (a beginning of) them. */
  ghost predicate TruthfulRange(v: Version, response: Response, body: Bytes) {
    "content-range" in response.headers ==>
      var range := ParseContentRange(response.headers["content-range"]);
      range.Some? && range.value.start <= range.value.end < range.value.total ==>
        && range.value.total == |v.content|
        && body <= v.content[range.value.start..range.value.end + 1]
  }

  /** Section 6.5.1: fields that describe the content are not sent as trailers. */
  ghost predicate DescribedByHeaders(ex: Exchange) {
    "content-range" !in ex.trailers && "content-length" !in ex.trailers
  }

  lemma TrailersDoNotMatter(ex: Exchange, remoteLength: Option<uint64>, start: nat)
    requires DescribedByHeaders(ex)
    ensures CheckResumedRange(StartResponse(ex), remoteLength, start) ==
            CheckResumedRange(ex.response, remoteLength, start)
    ensures ExpectedTotal(Returned(ex), remoteLength, start) == ExpectedTotal(ex.response, remoteLength, start)
  {
    hide ParseContentRange, ParseContentRangeTotal, ParseUint, IsUnsatisfied, CheckRange;
  }

  /**
   How version v answers a GET. Sections 14.2 and 13.1.5: 206 only to a Range request, and under If-Range only
   if the validator is current. Any other answer below 400 carries (a beginning of) the whole version and, when
   it ends without an error, its Content-Length and no Content-Range. Error answers may say anything.
   */
  ghost predicate TruthfulGet(v: Version, request: Request, ex: Exchange) {
    && (ex.response.status < 400 ==> DescribedByHeaders(ex))
    && (ex.response.status == 206 ==>
          && SendsRange(request)
          && (request.ifRange.Some? ==> Trim(request.ifRange.value) in Validators(v))
          && TruthfulRange(v, ex.response, Body(ex.chunks)))
    && (ex.response.status < 400 && ex.response.status != 206 ==>
          && Body(ex.chunks) <= v.content
          && (ex.code == CURLE_OK ==>
                && "content-range" !in ex.response.headers
                && "content-length" in ex.response.headers
                && ParseUint(ex.response.headers["content-length"]).Some?
                && ParseUint(ex.response.headers["content-length"]).value == |v.content|))
  }
}
