/**
 From the header lines of an answer to HEAD to what is known of the remote file: which field says what, and which
 statuses stop a download.
 */
module HeadAnswers {
  import opened Wrappers
  import opened Text
  import opened Http
  import opened PartialMetadata
  import opened Provider
  import opened HeaderFields

  function AsHead(c: Collected): HeadOutcome {
    HeadAnswered(Response(c.status, c.headers))
  }

  /** The lines of a 200 answer with all four fields, as servers capitalise them. */
  function PrintedHead(length: nat, ranges: string, etag: string, modified: string): seq<string> {
    [StatusLine("1.1", 200, " OK"),
     FieldLine("Content-Length", Decimal(length)),
     FieldLine("Accept-Ranges", ranges),
     FieldLine("ETag", etag),
     FieldLine("Last-Modified", modified)]
  }

  predicate IsFieldValue(s: string) {
    s != "" && IsTrimmed(s)
  }

  lemma NamesInLowerCase()
    ensures ToLower("Content-Length") == "content-length"
    ensures ToLower("Accept-Ranges") == "accept-ranges"
    ensures ToLower("ETag") == "etag"
    ensures ToLower("Last-Modified") == "last-modified"
  {
    hide ToLower;
    IsInLowerCase("Content-Length", "content-length");
    IsInLowerCase("Accept-Ranges", "accept-ranges");
    IsInLowerCase("ETag", "etag");
    IsInLowerCase("Last-Modified", "last-modified");
  }

  lemma IsInLowerCase(s: string, t: string)
    requires |s| == |t| && forall i | 0 <= i < |s| :: t[i] == Lower(s[i])
    ensures ToLower(s) == t
  {
  }

  lemma FirstLineFirst(c: Collected, line: string, rest: seq<string>)
    ensures WithLines(c, [line] + rest) == WithLines(WithLine(c, line), rest)
  {
    hide WithLine;
    assert ([line] + rest)[1..] == rest;
  }

  lemma LinesOneByOne(c: Collected, a: string, b: string, d: string, e: string, f: string)
    ensures WithLines(c, [a, b, d, e, f]) ==
            WithLine(WithLine(WithLine(WithLine(WithLine(c, a), b), d), e), f)
  {
    hide WithLine, WithLines;
    var c1 := WithLine(c, a);
    var c2 := WithLine(c1, b);
    var c3 := WithLine(c2, d);
    assert [a, b, d, e, f] == [a] + ([b] + ([d] + ([e] + ([f] + []))));
    FirstLineFirst(c, a, [b] + ([d] + ([e] + ([f] + []))));
    FirstLineFirst(c1, b, [d] + ([e] + ([f] + [])));
    FirstLineFirst(c2, d, [e] + ([f] + []));
    FirstLineFirst(c3, e, [f] + []);
    FirstLineFirst(WithLine(c3, e), f, []);
    NoLines(WithLine(WithLine(c3, e), f));
  }

  lemma NoLines(c: Collected)
    ensures WithLines(c, []) == c
  {
  }

  /** Whatever was collected before, the printed answer comes back as its status and its metadata. */
  lemma PrintedHeadIsReadBack(c: Collected, length: nat, ranges: string, etag: string, modified: string)
    requires length < UINT64_LIMIT && IsFieldValue(ranges) && IsFieldValue(etag) && IsFieldValue(modified)
    ensures var got := WithLines(c, PrintedHead(length, ranges, etag, modified));
            && got.status == 200
            && FetchMetadata(AsHead(got)) ==
               Metadata(Remote(Some(length), Some(ToLower(ranges) == "bytes"), Some(etag), Some(modified)))
  {
    hide WithLine, WithLines, Decimal, ParseUint, ToLower;
    var digits := Decimal(length);
    DigitsAreTrimmed(digits);
    NamesInLowerCase();
    LinesOneByOne(
      c, StatusLine("1.1", 200, " OK"), FieldLine("Content-Length", digits), FieldLine("Accept-Ranges", ranges),
      FieldLine("ETag", etag), FieldLine("Last-Modified", modified));
    StatusLineIsRead(c, "1.1", 200, " OK");
    var c0 := Collected(200, map[]);
    var c1 := Collected(200, map["content-length" := digits]);
    var c2 := Collected(200, c1.headers["accept-ranges" := ranges]);
    var c3 := Collected(200, c2.headers["etag" := etag]);
    FieldLineIsCollected(c0, "Content-Length", digits);
    FieldLineIsCollected(c1, "Accept-Ranges", ranges);
    FieldLineIsCollected(c2, "ETag", etag);
    FieldLineIsCollected(c3, "Last-Modified", modified);
    ParsePrintedUint(length);
  }

  /** Only "bytes", in any case, means that ranges are accepted. */
  lemma AcceptedRangeUnits()
    ensures ToLower("bytes") == ToLower("Bytes") == "bytes" && ToLower("none") != "bytes"
  {
    IsInLowerCase("bytes", "bytes");
    IsInLowerCase("Bytes", "bytes");
    IsInLowerCase("none", "none");
  }

  /** A field that is not there says nothing, and neither does a Content-Length that is no number. */
  lemma SilentFieldsSayNothing(h: Headers)
    ensures var remote := RemoteFromHeaders(h);
            && ("content-length" !in h || ParseUint(h["content-length"]).None? <==> remote.length.None?)
            && ("accept-ranges" !in h <==> remote.acceptsRanges.None?)
            && ("etag" !in h <==> remote.etag.None?)
            && ("last-modified" !in h <==> remote.lastModified.None?)
  {
    hide ParseUint;
  }

  /** The statuses after which the download goes on without metadata. */
  const SWALLOWED_STATUSES := {403, 405, 408, 429, 500, 501, 502, 503, 504}

  /** HEAD is ignored after a network failure or one of these statuses, final with another error, believed below 400. */
  lemma HeadStatusDecides(head: HeadOutcome)
    ensures FetchMetadata(head).HeadRejected? <==>
            head.HeadAnswered? && head.response.status >= 400 && head.response.status !in SWALLOWED_STATUSES
    ensures FetchMetadata(head).HeadRejected? ==>
              FetchMetadata(head).error ==
              HttpStatusError(head.response.status, RetryAfterSeconds(head.response.headers))
    ensures head.HeadNetworkError? || head.response.status in SWALLOWED_STATUSES ==>
              FetchMetadata(head) == Metadata(Remote(None, None, None, None))
    ensures head.HeadAnswered? && head.response.status < 400 ==>
              FetchMetadata(head) == Metadata(RemoteFromHeaders(head.response.headers))
  {
    hide RemoteFromHeaders, RetryAfterSeconds;
  }
}
