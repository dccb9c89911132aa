/**
 What every attempt and every run keeps, whatever the server answers and whatever fails locally.
 */
module ExecutorProperties {
  import opened Wrappers
  import opened Text
  import opened Http
  import opened ContentRange
  import opened PartialMetadata
  import opened FileSystem
  import opened Validation
  import opened Transfer
  import opened TransferProperties
  import opened Executor

  // ----- everything before the replacement leaves the output alone

  /** Only ".part" and ".part.meta" may differ. */
  ghost predicate Quiet(f: Files, base: Files) {
    f - {Part, Meta} == base - {Part, Meta}
  }

  ghost predicate AllQuiet(t: Trail, from: nat, base: Files) {
    forall i | from <= i < |t| :: Quiet(t[i], base)
  }

  /** A trail that continues t and has been quiet since. */
  ghost predicate QuietlyContinues(t: Trail, later: Trail) {
    t <= later && AllQuiet(later, |t|, Now(t)) && Quiet(Now(later), Now(t))
  }

  lemma QuietTransitive(t: Trail, t1: Trail, t2: Trail)
    requires QuietlyContinues(t, t1) && QuietlyContinues(t1, t2)
    ensures QuietlyContinues(t, t2)
  {
  }

  /** Removing partial state is quiet whether it works or not. */
  lemma RemovalIsQuiet(t: Trail, kept: Kept)
    ensures QuietlyContinues(t, PartialRemoved(t, kept))
    ensures var f, g := Now(t), Now(PartialRemoved(t, kept));
            && (Part in g <==> kept.part && Part in f) && (Part in g ==> g[Part] == f[Part])
            && (Meta in g <==> kept.meta && Meta in f) && (Meta in g ==> g[Meta] == f[Meta])
  {
    var f := Now(t);
    assert f - {Part} - {Part, Meta} == f - {Part, Meta};
    assert f - {Meta} - {Part, Meta} == f - {Part, Meta};
    assert f - {Part} - {Meta} - {Part, Meta} == f - {Part, Meta};
  }

  lemma AppendIsQuiet(t: Trail, s: Slot, b: Bytes)
    requires (s == Part || s == Meta) && s in Now(t)
    ensures QuietlyContinues(t, Appended(t, s, b))
  {
    var f, t1 := Now(t), Appended(t, s, b);
    forall i | |t| <= i < |t1|
      ensures Quiet(t1[i], f)
    {
      assert f[s := f[s] + b[..i - |t| + 1]] - {Part, Meta} == f - {Part, Meta};
    }
    assert f[s := f[s] + b] - {Part, Meta} == f - {Part, Meta};
  }

  lemma MetadataWriteIsQuiet(t: Trail, remote: Remote, fault: MetaFault)
    ensures var w := MetadataWritten(t, remote, fault).0;
            && QuietlyContinues(t, w)
            && (Part in Now(w) <==> Part in Now(t)) && (Part in Now(t) ==> Now(w)[Part] == Now(t)[Part])
  {
    hide RecordText;
    var t1 := Truncated(t, Meta);
    assert Now(t)[Meta := ""] - {Part, Meta} == Now(t) - {Part, Meta};
    if !fault.MetaOpenThrows? {
      AppendIsQuiet(t1, Meta, RecordText(remote, fault));
      QuietTransitive(t, t1, Appended(t1, Meta, RecordText(remote, fault)));
    }
  }

  lemma ReachableIsQuiet(f: Files, base: Files, kept: Bytes, whole: Bytes)
    requires Reachable(f, base, kept, whole)
    ensures Quiet(f, base)
  {
    assert f - {Part} == base - {Part} ==> f - {Part} - {Meta} == base - {Part} - {Meta};
    assert f - {Part} - {Meta} == f - {Part, Meta} && base - {Part} - {Meta} == base - {Part, Meta};
    assert base - {Part} - {Part} == base - {Part};
  }

  // ----- the stream

  /** What a GET and the closing of its stream leave. */
  ghost predicate StreamState(t: Trail, c: Trail, job: Job, ex: Exchange)
    requires Appends(job, ex.response) ==> Part in Now(t)
  {
    var kept := KeptPrefix(job, ex.response, Now(t));
    && t <= c
    && AllReachable(c, |t|, Now(t), kept, kept + Landing(job, ex))
    && Reachable(Now(c), Now(t), kept, kept + Landing(job, ex))
    && QuietlyContinues(t, c)
    && (LeavesFileAlone(job, ex.response) ==> Now(c) == Now(t) && forall i | |t| <= i < |c| :: c[i] == Now(t))
    && (ex.response.status >= 400 ==> c == t)
  }

  lemma TransferOutcome(t: Trail, job: Job, ex: Exchange)
    requires Appends(job, ex.response) ==> Part in Now(t) && |Now(t)[Part]| == job.start
    ensures var p := Perform(t, job, ex);
            var (c, closeThrew) := Closed(p.trail, p.sink, ex.flushLoss);
            && StreamState(t, c, job, ex)
            && (p.outcome.Answered? ==> ex.code == CURLE_OK)
            && (!closeThrew ==> c == p.trail)
            && (p.outcome != Aborted(OtherError) && ex.response.status < 400 ==> FullyWritten(t, p, job, ex))
  {
    hide Perform, CheckResumedRange, Body, FullyWritten;
    var p := Perform(t, job, ex);
    var kept := KeptPrefix(job, ex.response, Now(t));
    var whole := kept + Landing(job, ex);
    PerformReaches(t, job, ex);
    ClosedReaches(Now(t), p.trail, p.sink, ex.flushLoss, kept, whole);
    var c := Closed(p.trail, p.sink, ex.flushLoss).0;
    AllReachableJoins(p.trail, c, |t|, Now(t), kept, whole);
    forall i | |t| <= i < |c|
      ensures Quiet(c[i], Now(t))
    {
      ReachableIsQuiet(c[i], Now(t), kept, whole);
    }
    ReachableIsQuiet(Now(c), Now(t), kept, whole);
  }

  lemma JudgingIsQuiet(t: Trail, remote: Remote, job: Job, response: Response, written: nat, kept: Kept)
    ensures QuietlyContinues(t, Judged(t, remote, job, response, written, kept).trail)
  {
    hide ExpectedTotal, IsValidFile, RetryAfterSeconds;
    RemovalIsQuiet(t, kept);
  }

  lemma StreamIsQuiet(t: Trail, remote: Remote, job: Job, ex: Exchange)
    requires Appends(job, ex.response) ==> Part in Now(t) && |Now(t)[Part]| == job.start
    ensures QuietlyContinues(t, Stream(t, remote, job, ex).trail)
  {
    hide Perform, Closed, Judged;
    TransferOutcome(t, job, ex);
    var p := Perform(t, job, ex);
    var c := Closed(p.trail, p.sink, ex.flushLoss).0;
    var written := if p.sink.Open? then p.sink.written else 0;
    JudgingIsQuiet(c, remote, job, Returned(ex), written, ex.refused);
    QuietTransitive(t, c, Judged(c, remote, job, Returned(ex), written, ex.refused).trail);
  }

  // ----- exactly what a stream accepts

  /** The bytes that ".part" holds once the whole body has been written. */
  function Completed(job: Job, f: Files, ex: Exchange): Bytes
    requires Appends(job, ex.response) ==> Part in f
  {
    KeptPrefix(job, ex.response, f) + Body(ex.chunks)
  }

  /** Everything goes well here and on the wire, and the bytes are as many as the headers say in the end. */
  ghost predicate Acceptable(f: Files, remote: Remote, job: Job, ex: Exchange)
    requires Appends(job, ex.response) ==> Part in f
  {
    var whole := Completed(job, f, ex);
    && StartWorks(job, ex) && WritesWork(ex.chunks) && ex.code == CURLE_OK && ex.flushLoss.None?
    && ExpectedTotal(Returned(ex), remote.length, job.start) == Some(|whole|)
    && |whole| >= 4 && HasSignature(whole)
  }

  /**
   A stream accepts exactly these answers, all of them below 400, and then ".part" holds the kept bytes and the
   body. The branch that would accept a refused range is dead, since a resumed ".part" is short of the known size.
   */
  lemma StreamAcceptsIff(t: Trail, remote: Remote, p: Plan, ex: Exchange)
    requires p.Resume? ==>
               && Part in Now(t) && |Now(t)[Part]| == p.start
               && (remote.length.Some? ==> p.start < remote.length.value)
    ensures var job, s := JobFor(p, remote), Stream(t, remote, JobFor(p, remote), ex);
            && (s.outcome.Accepted? <==> Acceptable(Now(t), remote, job, ex))
            && (s.outcome.Accepted? ==>
                  && s.outcome == Accepted(|Body(ex.chunks)|, Appends(job, ex.response))
                  && Part in Now(s.trail) && Now(s.trail)[Part] == Completed(job, Now(t), ex)
                  && SameBesidesPart(Now(s.trail), Now(t)))
  {
    hide Perform, CheckResumedRange, ExpectedTotal, HasSignature, Body, WritesWork, RetryAfterSeconds;
    var job := JobFor(p, remote);
    TransferOutcome(t, job, ex);
    if ex.response.status < 400 {
      PerformWorksIff(t, job, ex);
    }
  }

  /** Nothing fails here until curl has ended. */
  ghost predicate ReceivedLocally(job: Job, ex: Exchange) {
    StartWorks(job, ex) && WritesWork(ex.chunks)
  }

  /**
   Why a stream refuses an answer below 400, each reason exactly when it holds: a failure here or an answer not let
   through, a failure of curl, a size that was not announced or is another one, or bytes that are no such file.
   */
  lemma StreamRejectsIff(t: Trail, remote: Remote, p: Plan, ex: Exchange)
    requires p.Resume? ==>
               && Part in Now(t) && |Now(t)[Part]| == p.start
               && (remote.length.Some? ==> p.start < remote.length.value)
    requires ex.response.status < 400
    ensures var job, o := JobFor(p, remote), Stream(t, remote, JobFor(p, remote), ex).outcome;
            var whole := Completed(job, Now(t), ex);
            var ended := ReceivedLocally(job, ex) && ex.code == CURLE_OK && ex.flushLoss.None?;
            var announced := ExpectedTotal(Returned(ex), remote.length, job.start);
            && (o == Rejected(OtherError) <==>
                  !ReceivedLocally(job, ex) || (ex.code == CURLE_OK && ex.flushLoss.Some?))
            && (o == Rejected(NetworkError(ex.code)) <==> ReceivedLocally(job, ex) && ex.code != CURLE_OK)
            && (o == Rejected(IntegrityError) <==> ended && announced != Some(|whole|))
            && (o == Rejected(PayloadError) <==>
                  ended && announced == Some(|whole|) && !(|whole| >= 4 && HasSignature(whole)))
            && (o.Rejected? ==> o.error in {OtherError, NetworkError(ex.code), IntegrityError, PayloadError})
  {
    hide Perform, CheckResumedRange, ExpectedTotal, HasSignature, Body, WritesWork, RetryAfterSeconds, StartWorks;
    TransferOutcome(t, JobFor(p, remote), ex);
    PerformWorksIff(t, JobFor(p, remote), ex);
  }

  // ----- 64-bit arithmetic on the expected size

  /** The expected size in unbounded arithmetic. */
  function UnboundedTotal(response: Response, remoteLength: Option<uint64>, start: nat): Option<nat> {
    var range := Header(response.headers, "content-range");
    var total := if range.Some? then ParseContentRangeTotal(range.value) else None;
    if total.Some? then Some(total.value as nat)
    else
      var length := Header(response.headers, "content-length");
      var parsed := if length.Some? then ParseUint(length.value) else None;
      if parsed.None? then (if remoteLength.Some? then Some(remoteLength.value as nat) else None)
      else if response.status == 206 then Some(start + parsed.value) else Some(parsed.value as nat)
  }

  /** A 206 whose Content-Range gives no total, and whose length reaches beyond 64 bits when added to the start. */
  ghost predicate SizeWraps(response: Response, start: nat) {
    var range, length := Header(response.headers, "content-range"), Header(response.headers, "content-length");
    && response.status == 206
    && (range.Some? ==> ParseContentRangeTotal(range.value).None?)
    && length.Some? && ParseUint(length.value).Some?
    && start + ParseUint(length.value).value >= UINT64_LIMIT
  }

  lemma ExpectedSizeIsExactIff(response: Response, remoteLength: Option<uint64>, start: nat)
    ensures ExpectedTotal(response, remoteLength, start) == UnboundedTotal(response, remoteLength, start) <==>
            !SizeWraps(response, start)
    ensures SizeWraps(response, start) ==>
              var wrapped := ExpectedTotal(response, remoteLength, start); wrapped.Some? && wrapped.value < start
  {
    hide ParseContentRangeTotal, ParseUint;
  }

  /** The answer's trailer fields have replaced its Content-Range by one that gives no total. */
  ghost predicate TrailerHidesRange(ex: Exchange) {
    "content-range" in ex.trailers && ParseContentRangeTotal(ex.trailers["content-range"]) == None
  }

  /** With the headers the response was started with, the sum is not formed; only a trailer can hide the range again. */
  lemma WrapNeedsTrailer(job: Job, ex: Exchange)
    requires Appends(job, ex.response) ==> CheckResumedRange(StartResponse(ex), job.remoteLength, job.start).Valid?
    requires !job.attemptedResume ==> job.start == 0
    requires SizeWraps(Returned(ex), job.start)
    ensures Appends(job, ex.response) && Body(ex.chunks) != ""
    ensures TrailerHidesRange(ex)
  {
    hide ParseContentRangeTotal, ParseUint, CheckResumedRange, Body;
    var range := CheckResumedRange(StartResponse(ex), job.remoteLength, job.start).range;
    ValidTotalIsParsed(StartResponse(ex), job.remoteLength, job.start, range);
  }

  /** The size check of a stream: it accepts no wrapped size, and meets one only behind a trailer. */
  lemma StreamSizeIsExact(t: Trail, remote: Remote, p: Plan, ex: Exchange)
    requires p.Resume? ==> Part in Now(t) && |Now(t)[Part]| == p.start
    requires ex.response.status < 400
    ensures var job, s := JobFor(p, remote), Stream(t, remote, JobFor(p, remote), ex);
            && (s.outcome.Accepted? ==> !SizeWraps(Returned(ex), job.start))
            && (s.outcome.Accepted? || RemovesPartial(s.outcome.error) ==>
                  SizeWraps(Returned(ex), job.start) ==>
                    && s.outcome == Rejected(IntegrityError)
                    && p.Resume? && ex.response.status == 206 && TrailerHidesRange(ex))
  {
    hide Perform, Closed, CheckResumedRange, ExpectedTotal, SizeWraps, Body, ParseContentRangeTotal, HasSignature;
    var job := JobFor(p, remote);
    TransferOutcome(t, job, ex);
    PerformFailures(t, job, ex);
    ExpectedSizeIsExactIff(Returned(ex), remote.length, job.start);
    if SizeWraps(Returned(ex), job.start) && Perform(t, job, ex).outcome.Answered? {
      WrapNeedsTrailer(job, ex);
    }
  }

  lemma ValidTotalIsParsed(response: Response, remoteLength: Option<uint64>, start: nat, r: Range)
    requires CheckResumedRange(response, remoteLength, start) == Valid(r)
    ensures "content-range" in response.headers
    ensures ParseContentRangeTotal(response.headers["content-range"]) == Some(r.total)
  {
    hide ParseContentRange, IsUnsatisfied, ParseUint, CheckRange;
    ValidIffSafeAnswer(response, remoteLength, start, r);
  }
}
