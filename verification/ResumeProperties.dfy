/** What a resumed download promises: when it asks for a range, what an answer may do, and when the partial survives. */
module ResumeProperties {
  import opened Wrappers
  import opened Text
  import opened Http
  import opened ContentRange
  import opened PartialMetadata
  import opened FileSystem
  import opened SafeReplace
  import opened Validation
  import opened Provider
  import opened Transfer
  import opened TransferProperties
  import opened Executor
  import opened ExecutorProperties
  import opened Acceptance

  // ----- a Range header never goes out without a non-blank If-Range

  ghost predicate Conditional(r: Request) {
    SendsRange(r) ==> IsNonBlank(r.ifRange)
  }

  lemma PlansAreConditional(resume: bool, f: Files, remote: Remote)
    ensures Conditional(RequestFor(Decide(resume, f, remote)))
    ensures var p := Decide(resume, f, remote);
            p.Resume? ==> p.start > 0 && (p.ifRange == remote.etag || p.ifRange == remote.lastModified)
  {
    hide Load, Matches, HasIdentity, IsValidFile, ChooseIfRange, IsNonBlank;
    var p := Decide(resume, f, remote);
    if p.Resume? {
      MatchedRemoteHasIfRange(f[Meta], remote);
    }
  }

  lemma AttemptRequest(cfg: Config, t: Trail, env: Env)
    ensures var r := Attempted(cfg, t, env).request;
            r.Some? ==> FetchMetadata(env.head).Metadata? &&
                        r.value == RequestFor(Decide(cfg.resume, Now(t), FetchMetadata(env.head).remote))
  {
    hide Decide, FetchMetadata, MetadataWritten, Stream, Replaced, SkipsExisting, Planned, RequestFor;
  }

  /** Over a whole run, every request that sends Range carries a usable validator. */
  lemma {:induction false} RunFromIsConditional(cfg: Config, t: Trail, envs: seq<Env>, attempt: nat)
    requires 1 <= attempt <= TotalAttempts(cfg) <= |envs|
    ensures forall r | r in RunFrom(cfg, t, envs, attempt).requests :: Conditional(r)
    decreases TotalAttempts(cfg) - attempt
  {
    hide Attempted, IsRetryable, WaitAfter, Conditional, Decide, FetchMetadata;
    var a := Attempted(cfg, t, envs[attempt - 1]);
    AttemptRequest(cfg, t, envs[attempt - 1]);
    if a.request.Some? {
      PlansAreConditional(cfg.resume, Now(t), FetchMetadata(envs[attempt - 1].head).remote);
    }
    if Retries(cfg, a, attempt) {
      RunFromIsConditional(cfg, a.trail, envs, attempt + 1);
    }
  }

  /** The header lines of a conditional request: no Range at all, or Range followed by If-Range. */
  lemma ConditionalHeaders(r: Request)
    requires Conditional(r)
    ensures DownloadHeaders(r) ==
            if SendsRange(r)
            then ["Accept-Encoding: identity", "Range: bytes=" + Decimal(r.start) + "-", "If-Range: " + r.ifRange.value]
            else ["Accept-Encoding: identity"]
  {
    hide Decimal;
  }

  /** Every GET of every run asks for the whole file, or for the rest of it under a non-blank validator. */
  lemma RangeNeverGoesUnconditional(cfg: Config, lockBusy: bool, f: Files, envs: seq<Env>)
    requires TotalAttempts(cfg) <= |envs|
    ensures forall r | r in RunTarget(cfg, lockBusy, f, envs).requests ::
              DownloadHeaders(r) == ["Accept-Encoding: identity"] ||
              (IsNonBlank(r.ifRange) &&
               DownloadHeaders(r) ==
               ["Accept-Encoding: identity", "Range: bytes=" + Decimal(r.start) + "-", "If-Range: " + r.ifRange.value])
  {
    hide RunFrom, DownloadHeaders, IsNonBlank;
    if !lockBusy {
      RunFromIsConditional(cfg, [f], envs, 1);
      forall r | r in RunTarget(cfg, lockBusy, f, envs).requests {
        ConditionalHeaders(r);
      }
    }
  }

  /** With resume off every request of a run is for the whole file. */
  lemma {:induction false} WithoutResumeNoRange(cfg: Config, t: Trail, envs: seq<Env>, attempt: nat)
    requires 1 <= attempt <= TotalAttempts(cfg) <= |envs| && !cfg.resume
    ensures forall r | r in RunFrom(cfg, t, envs, attempt).requests :: r == Request(0, None)
    decreases TotalAttempts(cfg) - attempt
  {
    hide Attempted, IsRetryable, WaitAfter, FetchMetadata;
    var a := Attempted(cfg, t, envs[attempt - 1]);
    AttemptRequest(cfg, t, envs[attempt - 1]);
    if Retries(cfg, a, attempt) {
      WithoutResumeNoRange(cfg, a.trail, envs, attempt + 1);
    }
  }

  // ----- conservation of resumed bytes

  /**
   What an accepted 206 has delivered: the old bytes and the body, as many as the headers promise at the end. The
   range that let the answer through may have announced fewer, if more bytes followed than it announced.
   */
  ghost predicate Conserved(
    before: Bytes, after: Bytes, start: nat, bytes: nat, remoteLength: Option<uint64>, ex: Exchange)
  {
    && |before| == start
    && after == before + Body(ex.chunks)
    && bytes == |Body(ex.chunks)|
    && UnboundedTotal(Returned(ex), remoteLength, start) == Some(start + bytes)
    && AnnouncedRange(ex).Some?
    && var range := AnnouncedRange(ex).value;
       && range.start == start <= range.end < range.total
       && (remoteLength.Some? ==> range.total == remoteLength.value)
       && (AnnouncedLength(ex).Some? ==> start + AnnouncedLength(ex).value == range.end + 1)
       && ("content-range" !in ex.trailers ==>
             && start + bytes == range.total
             && (range.end + 1 == range.total <==> bytes == range.end + 1 - start))
  }

  /** The Content-Range and the Content-Length that a response is started with. */
  function AnnouncedRange(ex: Exchange): Option<Range> {
    var header := Header(StartResponse(ex).headers, "content-range");
    if header.Some? then ParseContentRange(header.value) else None
  }

  function AnnouncedLength(ex: Exchange): Option<uint64> {
    var header := Header(StartResponse(ex).headers, "content-length");
    if header.Some? then ParseUint(header.value) else None
  }

  lemma StreamConserves(t: Trail, remote: Remote, p: Plan, ex: Exchange)
    requires p.Resume? && Part in Now(t) && |Now(t)[Part]| == p.start
    requires ex.response.status == 206
    ensures var s := Stream(t, remote, JobFor(p, remote), ex);
            s.outcome.Accepted? ==>
              && s.outcome.resumed && Part in Now(s.trail)
              && Conserved(Now(t)[Part], Now(s.trail)[Part], p.start, s.outcome.bytes, remote.length, ex)
  {
    hide Perform, Closed, CheckResumedRange, ExpectedTotal, UnboundedTotal, SizeWraps, ParseContentRange, ParseUint,
      HasSignature, Body;
    var job, started := JobFor(p, remote), StartResponse(ex);
    TransferOutcome(t, job, ex);
    StreamSizeIsExact(t, remote, p, ex);
    ExpectedSizeIsExactIff(Returned(ex), remote.length, job.start);
    if Stream(t, remote, job, ex).outcome.Accepted? {
      var range := CheckResumedRange(started, remote.length, job.start).range;
      ValidIffSafeAnswer(started, remote.length, job.start, range);
      ExpectedTotalOfValidRange(started, remote.length, job.start, range);
      if "content-range" !in ex.trailers {
        RangeDecidesSize(ex, remote.length, job.start);
      }
    }
  }

  /** Without a trailer of its own the range that let the answer through also gives the size that is checked. */
  lemma RangeDecidesSize(ex: Exchange, remoteLength: Option<uint64>, start: nat)
    requires CheckResumedRange(StartResponse(ex), remoteLength, start).Valid? && "content-range" !in ex.trailers
    ensures UnboundedTotal(Returned(ex), remoteLength, start) ==
            Some(CheckResumedRange(StartResponse(ex), remoteLength, start).range.total as nat)
  {
    hide CheckResumedRange, ParseContentRangeTotal, ParseUint;
    ValidTotalIsParsed(
      StartResponse(ex), remoteLength, start, CheckResumedRange(StartResponse(ex), remoteLength, start).range);
  }

  /** The remote metadata of an attempt that goes on to stream under plan p. */
  ghost predicate Streams(cfg: Config, t: Trail, env: Env, p: Plan) {
    var fetched := FetchMetadata(env.head);
    && fetched.Metadata?
    && !SkipsExisting(cfg, Now(t), fetched.remote)
    && Decide(cfg.resume, Now(t), fetched.remote) == p
    && !p.Promote?
  }

  /** An attempt that resumes hands the planned ".part", with its record rewritten, to the stream. */
  lemma ResumingAttempt(cfg: Config, t: Trail, env: Env, p: Plan)
    requires Streams(cfg, t, env, p) && p.Resume?
    ensures var remote := FetchMetadata(env.head).remote;
            var w := MetadataWritten(t, remote, env.metaFault);
            && cfg.resume && HasIdentity(remote)
            && Part in Now(t) && |Now(t)[Part]| == p.start
            && (remote.length.Some? ==> p.start < remote.length.value)
            && Part in Now(w.0) && Now(w.0)[Part] == Now(t)[Part]
            && QuietlyContinues(t, w.0)
            && (if w.1 then Tried(cfg, t, env) == Attempt(w.0, Failed(OtherError), None)
                else
                  var s := Stream(w.0, remote, JobFor(p, remote), env.exchange);
                  if s.outcome.Rejected?
                  then Tried(cfg, t, env) == Attempt(s.trail, Failed(s.outcome.error), Some(RequestFor(p)))
                  else Tried(cfg, t, env) ==
                       Finished(s.trail, env, s.outcome.bytes, s.outcome.resumed, Some(RequestFor(p))))
  {
    hide Load, Matches, IsValidFile, MetadataWritten, Stream, Finished, FetchMetadata, SkipsExisting;
    MetadataWriteIsQuiet(t, FetchMetadata(env.head).remote, env.metaFault);
  }

  /** A resume answered by 206 and accepted: the old bytes are an unchanged prefix of the output. */
  lemma ResumedBytesAreConserved(cfg: Config, t: Trail, env: Env, p: Plan)
    requires Streams(cfg, t, env, p) && p.Resume? && env.exchange.response.status == 206
    ensures var a := Attempted(cfg, t, env);
            a.verdict.Downloaded? ==>
              && a.verdict.resumed && Output in Now(a.trail) && Part in Now(t)
              && Conserved(Now(t)[Part], Now(a.trail)[Output], p.start, a.verdict.bytes,
                           FetchMetadata(env.head).remote.length, env.exchange)
  {
    hide Stream, MetadataWritten, FetchMetadata, Conserved, Replaced, Tried;
    ResumingAttempt(cfg, t, env, p);
    var remote := FetchMetadata(env.head).remote;
    var w := MetadataWritten(t, remote, env.metaFault);
    StreamConserves(w.0, remote, p, env.exchange);
    var s := Stream(w.0, remote, JobFor(p, remote), env.exchange);
    ReplacementOutputs(s.trail, env.replaceFault);
    RemovalKeepsOutput(Replaced(s.trail, env.replaceFault).0, env.last);
  }

  /** Neither rename throws that the replacement comes to. */
  predicate ReplacementWorks(f: Files, fault: Fault) {
    !fault.rename.FirstRenameThrows? && (Output in f ==> !fault.rename.SecondRenameThrows?)
  }

  /** Exactly when an attempt that resumes reports a download. */
  lemma ResumeDownloadsIff(cfg: Config, t: Trail, env: Env, p: Plan)
    requires Streams(cfg, t, env, p) && p.Resume?
    ensures Part in Now(t)
    ensures var a, remote := Attempted(cfg, t, env), FetchMetadata(env.head).remote;
            && (a.verdict.Downloaded? <==>
                  && !env.metaFault.MetaOpenThrows? && !env.metaFault.MetaWriteThrows?
                  && Acceptable(Now(t), remote, JobFor(p, remote), env.exchange)
                  && ReplacementWorks(Now(t), env.replaceFault))
            && (a.verdict.Downloaded? ==>
                  && a.verdict == Downloaded(|Body(env.exchange.chunks)|, env.exchange.response.status == 206)
                  && Output in Now(a.trail)
                  && Now(a.trail)[Output] == Completed(JobFor(p, remote), Now(t), env.exchange))
  {
    hide Stream, MetadataWritten, FetchMetadata, Tried, SkipsExisting, Decide, StartWorks, HasSignature, ExpectedTotal;
    ResumingAttempt(cfg, t, env, p);
    var remote := FetchMetadata(env.head).remote;
    var w := MetadataWritten(t, remote, env.metaFault);
    var s := Stream(w.0, remote, JobFor(p, remote), env.exchange);
    RecordIsRewritten(t, remote, env.metaFault);
    StreamAcceptsIff(w.0, remote, p, env.exchange);
    QuietKeepsOutput(Now(w.0), Now(t));
    if s.outcome.Accepted? {
      OutputOutlivesPart(Now(s.trail), Now(w.0));
      FinishingIff(s.trail, env, s.outcome.bytes, s.outcome.resumed, Some(RequestFor(p)));
    }
  }

  lemma OutputOutlivesPart(f: Files, base: Files)
    requires SameBesidesPart(f, base)
    ensures Output in f <==> Output in base
  {
    assert Output in f - {Part} <==> Output in base - {Part};
  }

  lemma FinishingIff(u: Trail, env: Env, bytes: nat, resumed: bool, request: Option<Request>)
    requires Part in Now(u)
    ensures var a := Finished(u, env, bytes, resumed, request);
            && (a.verdict.Downloaded? <==> ReplacementWorks(Now(u), env.replaceFault))
            && (a.verdict.Downloaded? ==>
                  && a.verdict == Downloaded(bytes, resumed)
                  && Output in Now(a.trail) && Now(a.trail)[Output] == Now(u)[Part])
  {
  }

  // ----- short ranges

  /** A range that is let through although it ends before its total. */
  ghost predicate AnnouncesShortRange(ex: Exchange) {
    AnnouncedRange(ex).Some? && AnnouncedRange(ex).value.end + 1 < AnnouncedRange(ex).value.total
  }

  /** What the size check compares with: the total of that range, unless a trailer has put another in its place. */
  ghost predicate FillsTotal(remote: Remote, start: nat, ex: Exchange)
    requires AnnouncedRange(ex).Some?
  {
    var size := start + |Body(ex.chunks)|;
    if "content-range" in ex.trailers then ExpectedTotal(Returned(ex), remote.length, start) == Some(size)
    else AnnouncedRange(ex).value.total as nat == size
  }

  /**
   Exactly when a resumed answer with a short range is accepted: it is let through, nothing fails, and the bytes
   fill the total nevertheless, because more of them came than the range announces or because a Content-Range
   among the trailers has overruled it, and with it the size that HEAD gave.
   */
  lemma ShortRangeAcceptedIff(t: Trail, remote: Remote, p: Plan, ex: Exchange)
    requires p.Resume? && Part in Now(t) && |Now(t)[Part]| == p.start
    requires remote.length.Some? ==> p.start < remote.length.value
    requires ex.response.status == 206 && AnnouncesShortRange(ex)
    ensures var job, whole := JobFor(p, remote), Now(t)[Part] + Body(ex.chunks);
            Stream(t, remote, job, ex).outcome.Accepted? <==>
              && StartWorks(job, ex) && WritesWork(ex.chunks) && ex.code == CURLE_OK && ex.flushLoss.None?
              && FillsTotal(remote, p.start, ex)
              && |whole| >= 4 && HasSignature(whole)
    ensures Stream(t, remote, JobFor(p, remote), ex).outcome.Accepted? && "content-range" !in ex.trailers ==>
              && AnnouncedRange(ex).value.end + 1 < p.start + |Body(ex.chunks)|
              && AnnouncedLength(ex) != Some(|Body(ex.chunks)|)
  {
    hide Stream, CheckResumedRange, ExpectedTotal, ParseContentRange, ParseUint, HasSignature, WritesWork, Body;
    var job, started := JobFor(p, remote), StartResponse(ex);
    StreamAcceptsIff(t, remote, p, ex);
    if StartWorks(job, ex) {
      var range := CheckResumedRange(started, remote.length, job.start).range;
      ValidIffSafeAnswer(started, remote.length, job.start, range);
      if "content-range" !in ex.trailers {
        RangeDecidesSize(ex, remote.length, job.start);
        ExpectedSizeIsExactIff(Returned(ex), remote.length, job.start);
        NoTrailerNoWrap(job, ex);
      }
    }
  }

  lemma NoTrailerNoWrap(job: Job, ex: Exchange)
    requires Appends(job, ex.response) && CheckResumedRange(StartResponse(ex), job.remoteLength, job.start).Valid?
    requires "content-range" !in ex.trailers
    ensures !SizeWraps(Returned(ex), job.start)
  {
    hide CheckResumedRange, SizeWraps, Body;
    if SizeWraps(Returned(ex), job.start) {
      WrapNeedsTrailer(job, ex);
    }
  }

  /** Eight bytes of a file are there, and its signature with them. */
  const EIGHT_BYTES: Files := map[Part := HDF5_MAGIC]

  const OVERRUN := Exchange(
    Response(206, map["content-range" := PrintRange(8, 8, 10)]),
    [Chunk("ab", None)], map[], CURLE_OK, START_WORKS, START_WORKS, None, NOTHING_KEPT)

  /** One byte is announced, two are sent, and together with the old eight they are the total. */
  lemma ShortRangeCanBeAccepted(remote: Remote)
    requires remote.length.None? || remote.length == Some(10)
    ensures var s := Stream([EIGHT_BYTES], remote, Job(true, 8, remote.length), OVERRUN);
            && s.outcome == Accepted(2, true)
            && Now(s.trail) == map[Part := HDF5_MAGIC + "ab"]
            && AnnouncedRange(OVERRUN) == Some(Range(8, 8, 10))
  {
    hide CheckResumedRange, ParseContentRange, PrintRange, Stream, ExpectedTotal;
    var p := Resume(8, None);
    var range := Range(8, 8, 10);
    assert OVERRUN.chunks[1..] == [] && Body(OVERRUN.chunks) == "ab";
    PrintedRangeParses(8, 8, 10);
    ValidIffSafeAnswer(OVERRUN.response, remote.length, 8, range);
    assert Returned(OVERRUN) == OVERRUN.response;
    ExpectedTotalOfValidRange(OVERRUN.response, remote.length, 8, range);
    StreamAcceptsIff([EIGHT_BYTES], remote, p, OVERRUN);
    assert HasSignature(HDF5_MAGIC + "ab");
    OnlyPart(Now(Stream([EIGHT_BYTES], remote, JobFor(p, remote), OVERRUN).trail), HDF5_MAGIC);
  }

  const OVERRULED := Exchange(
    Response(206, map["content-range" := PrintRange(8, 8, 10), "content-length" := Decimal(1)]),
    [Chunk("a", None)], map["content-range" := PrintRange(8, 8, 9)],
    CURLE_OK, START_WORKS, START_WORKS, None, NOTHING_KEPT)

  /** One byte is announced by range and length, and sent; a trailer then lowers the total to nine. */
  lemma TrailerCanOverruleRange(remote: Remote)
    requires remote.length.None? || remote.length == Some(10)
    ensures var s := Stream([EIGHT_BYTES], remote, Job(true, 8, remote.length), OVERRULED);
            && s.outcome == Accepted(1, true)
            && Now(s.trail) == map[Part := HDF5_MAGIC + "a"]
    ensures AnnouncedRange(OVERRULED) == Some(Range(8, 8, 10)) && AnnouncedLength(OVERRULED) == Some(1)
  {
    hide CheckResumedRange, ParseContentRange, PrintRange, Stream, ParseUint, Decimal, ExpectedTotal;
    var p := Resume(8, None);
    var range := Range(8, 8, 10);
    assert OVERRULED.chunks[1..] == [] && Body(OVERRULED.chunks) == "a";
    PrintedRangeParses(8, 8, 10);
    PrintedRangeParses(8, 8, 9);
    ParsePrintedUint(1);
    ValidIffSafeAnswer(OVERRULED.response, remote.length, 8, range);
    ParsedRangeDecidesTotal(Returned(OVERRULED), remote.length, 8, Range(8, 8, 9));
    StreamAcceptsIff([EIGHT_BYTES], remote, p, OVERRULED);
    assert HasSignature(HDF5_MAGIC + "a");
    OnlyPart(Now(Stream([EIGHT_BYTES], remote, JobFor(p, remote), OVERRULED).trail), HDF5_MAGIC);
  }

  lemma ParsedRangeDecidesTotal(response: Response, remoteLength: Option<uint64>, start: nat, r: Range)
    requires "content-range" in response.headers && ParseContentRange(response.headers["content-range"]) == Some(r)
    ensures ExpectedTotal(response, remoteLength, start) == Some(r.total)
  {
    hide ParseContentRange, ParseUint;
  }

  lemma OnlyPart(f: Files, before: Bytes)
    requires Part in f && SameBesidesPart(f, map[Part := before])
    ensures f == map[Part := f[Part]]
  {
    forall s: Slot | s != Part
      ensures s !in f
    {
      assert s in f <==> s in f - {Part};
      assert s !in map[Part := before] - {Part};
    }
  }

  // ----- a refused range

  /** A ".part" shorter than the known remote size is never valid, so the branch that would accept it is dead. */
  lemma RefusedStream(t: Trail, remote: Remote, p: Plan, ex: Exchange)
    requires p.Resume? && Part in Now(t) && |Now(t)[Part]| == p.start
    requires remote.length.Some? ==> p.start < remote.length.value
    requires ex.response.status == 416
    ensures Stream(t, remote, JobFor(p, remote), ex) ==
            if Body(ex.chunks) != "" then Streamed(t, Rejected(OtherError))
            else if ex.code != CURLE_OK then Streamed(t, Rejected(NetworkError(ex.code)))
            else Streamed(PartialRemoved(t, ex.refused), Rejected(IntegrityError))
  {
    hide Perform, HasSignature, Body;
    RefusedTransfer(t, JobFor(p, remote), ex);
  }

  /** Without the data or without the record, the next request is for the whole file. */
  lemma HalfAPartialRestarts(cfg: Config, t: Trail, env: Env)
    requires Part !in Now(t) || Meta !in Now(t)
    ensures var r := Attempted(cfg, t, env).request; r.Some? ==> r.value == Request(0, None)
  {
    hide Attempted, FetchMetadata;
    AttemptRequest(cfg, t, env);
  }

  /**
   A 416 without a body on a resume never promotes and leaves the output alone. The partial state is removed, once
   by the stream and once by the clean-up, and the next attempt asks from byte 0 unless both its files survive
   both. With a body, the write throws and the partial stays as it was.
   */
  lemma RefusedRangeRestarts(cfg: Config, t: Trail, env: Env, p: Plan)
    requires Streams(cfg, t, env, p) && p.Resume? && env.exchange.response.status == 416
    ensures var a := Attempted(cfg, t, env);
            && a.verdict.Failed? && SameOutput(Now(a.trail), Now(t))
            && (a.request.Some? && Body(env.exchange.chunks) == "" && env.exchange.code == CURLE_OK ==>
                  && a.verdict.error == IntegrityError
                  && (Part in Now(a.trail) <==> env.exchange.refused.part && env.last.part)
                  && (Meta in Now(a.trail) <==> env.exchange.refused.meta && env.last.meta)
                  && (Part !in Now(a.trail) || Meta !in Now(a.trail) ==>
                        forall next: Env ::
                          var r := Attempted(cfg, a.trail, next).request; r.Some? ==> r.value == Request(0, None)))
            && (Body(env.exchange.chunks) != "" ==>
                  a.verdict.error == OtherError && Part in Now(a.trail) && Now(a.trail)[Part] == Now(t)[Part])
  {
    hide Stream, MetadataWritten, FetchMetadata, Tried, Body, SkipsExisting, PartialRemoved, Quiet;
    ResumingAttempt(cfg, t, env, p);
    var remote := FetchMetadata(env.head).remote;
    var w := MetadataWritten(t, remote, env.metaFault);
    RefusedStream(w.0, remote, p, env.exchange);
    RemovedTwice(w.0, env.exchange.refused, env.last);
    QuietKeepsOutput(Now(w.0), Now(t));
    RecordIsRewritten(t, remote, env.metaFault);
    var after := Attempted(cfg, t, env).trail;
    if Part !in Now(after) || Meta !in Now(after) {
      forall next: Env
        ensures var r := Attempted(cfg, after, next).request; r.Some? ==> r.value == Request(0, None)
      {
        HalfAPartialRestarts(cfg, after, next);
      }
    }
  }

  lemma RemovedTwice(u: Trail, first: Kept, second: Kept)
    ensures var f, g := Now(u), Now(PartialRemoved(PartialRemoved(u, first), second));
            && SameOutput(g, f)
            && (Part in g <==> first.part && second.part && Part in f)
            && (Meta in g <==> first.meta && second.meta && Meta in f)
  {
  }

  // ----- error answers

  /** An attempt whose GET is refused with an error other than 416. */
  ghost predicate ErrorAnswer(env: Env, remote: Remote) {
    && FetchMetadata(env.head) == Metadata(remote)
    && env.exchange.response.status >= 400 && env.exchange.response.status != 416
  }

  /** The state from which every attempt plans the same resume. */
  ghost predicate ResumesAt(cfg: Config, f: Files, remote: Remote, part: Bytes, p: Plan) {
    && p.Resume?
    && Part in f && f[Part] == part
    && !SkipsExisting(cfg, f, remote)
    && Decide(cfg.resume, f, remote) == p
  }

  /** A record cut short in silence survives if what is left of it still matches. */
  ghost predicate RecordSurvives(fault: MetaFault, remote: Remote) {
    fault.MetaCutShort? ==> Recognizes(RecordText(remote, fault), remote)
  }

  lemma ErrorStream(t: Trail, remote: Remote, p: Plan, ex: Exchange)
    requires ex.response.status >= 400 && ex.response.status != 416
    ensures var s := Stream(t, remote, JobFor(p, remote), ex);
            s == Streamed(t, Rejected(
                   if ex.code != CURLE_OK then NetworkError(ex.code)
                   else HttpStatusError(ex.response.status, RetryAfterSeconds(Returned(ex).headers))))
  {
    hide Perform, RetryAfterSeconds;
    ErrorTransfer(t, JobFor(p, remote), ex);
  }

  /** With another record beside it, a resumable ".part" is resumed from the same byte or discarded. */
  lemma RewrittenRecordDecides(cfg: Config, f: Files, remote: Remote, text: string, part: Bytes, p: Plan)
    requires ResumesAt(cfg, f, remote, part, p)
    ensures var g := f[Meta := text];
            if Recognizes(text, remote) then ResumesAt(cfg, g, remote, part, p)
            else Decide(cfg.resume, g, remote) == Fresh(true)
  {
    hide Load, IsValidFile, Matches, ChooseIfRange, HasIdentity;
    ValidityIgnoresMeta(f, Output, text, remote.length);
    ValidityIgnoresMeta(f, Part, text, remote.length);
  }

  lemma ValidityIgnoresMeta(f: Files, s: Slot, text: Bytes, size: Option<nat>)
    requires s != Meta
    ensures IsValidFile(f[Meta := text], s, size) <==> IsValidFile(f, s, size)
  {
  }

  /** A remote that some record matches is matched by the record that is written for it. */
  lemma RecognizedRemoteIsRecorded(text: string, remote: Remote)
    requires Recognizes(text, remote)
    ensures Recognizes(MetadataText(remote), remote)
  {
    hide LoadFrom;
    LoadedValidatorsAreClean(TextStream.Input(text, false, false), NOTHING_STORED, false);
    MetadataRoundTrip(remote);
    RecordedMatchesItself(remote);
  }

  lemma RecordIsRewritten(t: Trail, remote: Remote, fault: MetaFault)
    ensures var w := MetadataWritten(t, remote, fault);
            && (w.1 <==> fault.MetaOpenThrows? || fault.MetaWriteThrows?)
            && (!fault.MetaOpenThrows? ==> Now(w.0) == Now(t)[Meta := RecordText(remote, fault)])
  {
    hide RecordText;
    var text := RecordText(remote, fault);
    assert "" + text == text;
    assert Now(t)[Meta := ""][Meta := text] == Now(t)[Meta := text];
  }

  /**
   One such attempt changes the record at most. It asks from the planned byte if it asks at all, and the next
   plan is the same one exactly when the record survives; otherwise it starts over.
   */
  lemma ErrorAttempt(cfg: Config, t: Trail, remote: Remote, env: Env, part: Bytes, p: Plan)
    requires ResumesAt(cfg, Now(t), remote, part, p) && ErrorAnswer(env, remote)
    ensures var a := Attempted(cfg, t, env);
            && t <= a.trail && a.verdict.Failed?
            && (forall i | |t| <= i < |a.trail| :: Part in a.trail[i] && a.trail[i][Part] == part)
            && (a.request.None? ==> a.verdict.error == OtherError)
            && (a.request.Some? ==>
                  && a.request.value == RequestFor(p)
                  && (if RecordSurvives(env.metaFault, remote) then ResumesAt(cfg, Now(a.trail), remote, part, p)
                      else Decide(cfg.resume, Now(a.trail), remote) == Fresh(true)))
  {
    hide Stream, FetchMetadata, Tried, SkipsExisting, Recognizes, MetadataText;
    ResumingAttempt(cfg, t, env, p);
    var w := MetadataWritten(t, remote, env.metaFault);
    WritingKeepsPart(t, remote, env.metaFault, part);
    if !w.1 {
      ErrorStream(w.0, remote, p, env.exchange);
      RecordIsRewritten(t, remote, env.metaFault);
      ResumedRecordIsRecognized(cfg, Now(t), remote, part, p);
      RecognizedRemoteIsRecorded(Now(t)[Meta], remote);
      RewrittenRecordDecides(cfg, Now(t), remote, RecordText(remote, env.metaFault), part, p);
    }
  }

  lemma ResumedRecordIsRecognized(cfg: Config, f: Files, remote: Remote, part: Bytes, p: Plan)
    requires ResumesAt(cfg, f, remote, part, p)
    ensures Meta in f && Recognizes(f[Meta], remote)
  {
    hide Load, Matches, IsValidFile, HasIdentity, ChooseIfRange;
  }

  lemma WritingKeepsPart(t: Trail, remote: Remote, fault: MetaFault, part: Bytes)
    requires Part in Now(t) && Now(t)[Part] == part
    ensures var w := MetadataWritten(t, remote, fault).0;
            t <= w && forall i | |t| <= i < |w| :: Part in w[i] && w[i][Part] == part
  {
    hide MetadataText;
  }

  /** The attempt after it asks from the same byte exactly if the record survives, and from byte 0 if not. */
  lemma CutRecordRestarts(cfg: Config, t: Trail, remote: Remote, env: Env, next: Env, part: Bytes, p: Plan)
    requires ResumesAt(cfg, Now(t), remote, part, p) && ErrorAnswer(env, remote)
    requires FetchMetadata(next.head) == Metadata(remote)
    requires Attempted(cfg, t, env).request.Some?
    ensures var r := Attempted(cfg, Attempted(cfg, t, env).trail, next).request;
            r.Some? ==> r.value == if RecordSurvives(env.metaFault, remote) then RequestFor(p) else Request(0, None)
  {
    hide Attempted, ResumesAt, ErrorAnswer, FetchMetadata, MetadataText, Decide;
    ErrorAttempt(cfg, t, remote, env, part, p);
    AttemptRequest(cfg, Attempted(cfg, t, env).trail, next);
    if RecordSurvives(env.metaFault, remote) {
      ResumesAtDecides(cfg, Now(Attempted(cfg, t, env).trail), remote, part, p);
    }
  }

  lemma ResumesAtDecides(cfg: Config, f: Files, remote: Remote, part: Bytes, p: Plan)
    requires ResumesAt(cfg, f, remote, part, p)
    ensures Decide(cfg.resume, f, remote) == p
  {
  }

  /** Some cuts do lose the record: all of it may be missing. */
  lemma EmptyRecordIsLost(remote: Remote)
    ensures !RecordSurvives(MetaCutShort(0), remote)
  {
    assert MetadataText(remote)[..0] == "";
    assert Load("") == None;
  }

  /**
   Error bodies never touch the partial: while the metadata stays the same and every GET is refused, each
   attempt asks from the same byte under the same validator, and ".part" keeps its bytes in every state. Of the
   record it is only needed that what an attempt leaves to a later one survives.
   */
  lemma {:induction false} ErrorRunKeepsPartial(
    cfg: Config, t: Trail, remote: Remote, envs: seq<Env>, attempt: nat, part: Bytes, p: Plan)
    requires 1 <= attempt <= TotalAttempts(cfg) <= |envs|
    requires ResumesAt(cfg, Now(t), remote, part, p)
    requires forall k | 0 <= k < |envs| :: ErrorAnswer(envs[k], remote)
    requires forall k | attempt - 1 <= k < TotalAttempts(cfg) - 1 :: RecordSurvives(envs[k].metaFault, remote)
    ensures var r := RunFrom(cfg, t, envs, attempt);
            && t <= r.trail && r.result.status.FailedStatus?
            && (forall i | |t| <= i < |r.trail| :: Part in r.trail[i] && r.trail[i][Part] == part)
            && (forall i | 0 <= i < |r.requests| :: r.requests[i] == RequestFor(p))
    decreases TotalAttempts(cfg) - attempt
  {
    hide Attempted, ResumesAt, WaitAfter, ErrorAnswer, RecordSurvives;
    var a := Attempted(cfg, t, envs[attempt - 1]);
    ErrorAttempt(cfg, t, remote, envs[attempt - 1], part, p);
    if Retries(cfg, a, attempt) {
      assert RecordSurvives(envs[attempt - 1].metaFault, remote);
      ErrorRunKeepsPartial(cfg, a.trail, remote, envs, attempt + 1, part, p);
      var rest := RunFrom(cfg, a.trail, envs, attempt + 1);
      forall i | |t| <= i < |rest.trail|
        ensures Part in rest.trail[i] && rest.trail[i][Part] == part
      {
        if i < |a.trail| {
          assert rest.trail[i] == a.trail[i];
        }
      }
    }
  }
}
