/**
 What comes of every answer: the verdict of the attempt that met it, what the clean-up leaves, and whether the run
 goes on, told from the answer itself and from what failed locally.
 */
module Outcomes {
  import opened Wrappers
  import Text
  import opened Http
  import opened ContentRange
  import opened PartialMetadata
  import opened FileSystem
  import opened SafeReplace
  import opened Validation
  import opened Provider
  import opened Transfer
  import opened TransferProperties
  import opened Executor
  import opened ExecutorProperties
  import opened Acceptance
  import opened ResumeProperties
  import opened Plans

  // ----- one attempt

  /** A 416 to a request for the whole file is an error like any other, except that its body is not dropped. */
  lemma RefusedFreshStream(t: Trail, remote: Remote, p: Plan, ex: Exchange)
    requires !p.Resume? && ex.response.status == 416
    ensures Stream(t, remote, JobFor(p, remote), ex) ==
            Streamed(t, Rejected(
              if Body(ex.chunks) != "" then OtherError
              else if ex.code != CURLE_OK then NetworkError(ex.code)
              else HttpStatusError(416, RetryAfterSeconds(Returned(ex).headers))))
  {
    hide Perform, Body, RetryAfterSeconds;
    RefusedTransfer(t, JobFor(p, remote), ex);
  }

  /** The verdict on an answer of 400 or more, by status, body and curl's code. */
  lemma ErrorVerdict(cfg: Config, t: Trail, env: Env, p: Plan)
    requires Streams(cfg, t, env, p) && !RecordThrows(cfg, FetchMetadata(env.head).remote, env.metaFault)
    requires env.exchange.response.status >= 400
    ensures var ex := env.exchange;
            Attempted(cfg, t, env).verdict ==
            if ex.response.status == 416 && Body(ex.chunks) != "" then Failed(OtherError)
            else if ex.code != CURLE_OK then Failed(NetworkError(ex.code))
            else if ex.response.status == 416 && p.Resume? then Failed(IntegrityError)
            else Failed(HttpStatusError(ex.response.status, RetryAfterSeconds(Returned(ex).headers)))
  {
    var remote := FetchMetadata(env.head).remote;
    hide Stream, FetchMetadata, Body, RetryAfterSeconds, RecordThrows, Streams, RecordedIfDue;
    var w := RecordedIfDue(cfg, Planned(t, p, env.first), remote, env.metaFault);
    AttemptStreams(cfg, t, env, p);
    if env.exchange.response.status != 416 {
      ErrorStream(w.0, remote, p, env.exchange);
    } else if p.Resume? {
      RefusedStream(w.0, remote, p, env.exchange);
    } else {
      RefusedFreshStream(w.0, remote, p, env.exchange);
    }
  }

  /** The bytes that ".part" holds when the whole body has arrived in this attempt. */
  ghost function Arrived(f: Files, p: Plan, remote: Remote, ex: Exchange): Bytes
    requires p.Resume? ==> Part in f
  {
    Completed(JobFor(p, remote), f, ex)
  }

  /** The transfer ended without a failure, here or at curl's. */
  ghost predicate Ended(p: Plan, remote: Remote, ex: Exchange) {
    ReceivedLocally(JobFor(p, remote), ex) && ex.code == CURLE_OK && ex.flushLoss.None?
  }

  ghost predicate HasAnnouncedSize(f: Files, p: Plan, remote: Remote, ex: Exchange)
    requires p.Resume? ==> Part in f
  {
    ExpectedTotal(Returned(ex), remote.length, JobFor(p, remote).start) == Some(|Arrived(f, p, remote, ex)|)
  }

  ghost predicate IsPayload(b: Bytes) {
    |b| >= 4 && HasSignature(b)
  }

  /** How a stream ends, each outcome exactly when its reason holds. */
  ghost predicate StreamFate(f: Files, p: Plan, remote: Remote, ex: Exchange, o: StreamOutcome)
    requires p.Resume? ==> Part in f
  {
    var received := ReceivedLocally(JobFor(p, remote), ex);
    var ended, fits := Ended(p, remote, ex), HasAnnouncedSize(f, p, remote, ex);
    var payload := IsPayload(Arrived(f, p, remote, ex));
    && (o == Rejected(NetworkError(ex.code)) <==> received && ex.code != CURLE_OK)
    && (o == Rejected(OtherError) <==> !received || (ex.code == CURLE_OK && ex.flushLoss.Some?))
    && (o == Rejected(IntegrityError) <==> ended && !fits)
    && (o == Rejected(PayloadError) <==> ended && fits && !payload)
    && (o.Accepted? <==> ended && fits && payload)
    && (o.Accepted? ==> o == Accepted(|Body(ex.chunks)|, p.Resume? && ex.response.status == 206))
  }

  /** The stream as it starts from a disk u, told from a disk f with the same ".part" to resume. */
  lemma StreamVerdict(f: Files, u: Trail, remote: Remote, p: Plan, ex: Exchange)
    requires p.Resume? ==>
               && Part in f && Part in Now(u) && Now(u)[Part] == f[Part] && |f[Part]| == p.start
               && (remote.length.Some? ==> p.start < remote.length.value)
    requires ex.response.status < 400
    ensures var s := Stream(u, remote, JobFor(p, remote), ex);
            && StreamFate(f, p, remote, ex, s.outcome)
            && (s.outcome.Accepted? ==>
                  && Part in Now(s.trail) && Now(s.trail)[Part] == Arrived(f, p, remote, ex)
                  && SameBesidesPart(Now(s.trail), Now(u)))
  {
    hide Stream, Body, ExpectedTotal, HasSignature, StartWorks, WritesWork;
    StreamAcceptsIff(u, remote, p, ex);
    StreamRejectsIff(u, remote, p, ex);
  }

  /** What the attempt makes of it: a file that is not moved into place is a local failure too. */
  ghost predicate AttemptFate(f: Files, p: Plan, remote: Remote, ex: Exchange, moved: bool, v: Verdict)
    requires p.Resume? ==> Part in f
  {
    var received := ReceivedLocally(JobFor(p, remote), ex);
    var ended, fits := Ended(p, remote, ex), HasAnnouncedSize(f, p, remote, ex);
    var payload := IsPayload(Arrived(f, p, remote, ex));
    && (v == Failed(NetworkError(ex.code)) <==> received && ex.code != CURLE_OK)
    && (v == Failed(IntegrityError) <==> ended && !fits)
    && (v == Failed(PayloadError) <==> ended && fits && !payload)
    && (v.Downloaded? <==> ended && fits && payload && moved)
    && (v.Downloaded? ==> v == Downloaded(|Body(ex.chunks)|, p.Resume? && ex.response.status == 206))
    && (v == Failed(OtherError) <==>
          || !received
          || (ex.code == CURLE_OK && ex.flushLoss.Some?)
          || (ended && fits && payload && !moved))
  }

  lemma FateCarriesOver(f: Files, p: Plan, remote: Remote, ex: Exchange, o: StreamOutcome, moved: bool, v: Verdict)
    requires p.Resume? ==> Part in f
    requires StreamFate(f, p, remote, ex, o)
    requires v == if o.Rejected? then Failed(o.error)
                  else if moved then Downloaded(o.bytes, o.resumed) else Failed(OtherError)
    ensures AttemptFate(f, p, remote, ex, moved, v)
  {
    hide HasAnnouncedSize, IsPayload, Arrived, Body, StartWorks, WritesWork;
  }

  /**
   The verdict on an answer below 400: each is given exactly when its reason holds. A file that is not of the
   announced size is an integrity failure, one of that size that is no such file a payload failure.
   */
  lemma AnswerVerdict(cfg: Config, t: Trail, env: Env, p: Plan)
    requires Streams(cfg, t, env, p) && !RecordThrows(cfg, FetchMetadata(env.head).remote, env.metaFault)
    requires env.exchange.response.status < 400
    ensures p.Resume? ==> Part in Now(t)
    ensures AttemptFate(Now(t), p, FetchMetadata(env.head).remote, env.exchange,
                        ReplacementWorks(Now(t), env.replaceFault), Attempted(cfg, t, env).verdict)
  {
    var remote, ex := FetchMetadata(env.head).remote, env.exchange;
    hide Stream, FetchMetadata, RecordThrows, Streams, RecordedIfDue, Finished, QuietlyContinues, SameBesidesPart,
      ReplacementWorks, Tried, StreamFate, AttemptFate, Arrived;
    var w := RecordedIfDue(cfg, Planned(t, p, env.first), remote, env.metaFault);
    var s := Stream(w.0, remote, JobFor(p, remote), ex);
    var moved := ReplacementWorks(Now(t), env.replaceFault);
    AttemptStreams(cfg, t, env, p);
    StreamVerdict(Now(t), w.0, remote, p, ex);
    if s.outcome.Accepted? {
      MovingIsTheSame(t, w.0, s.trail, env.replaceFault);
      FinishingIff(s.trail, env, s.outcome.bytes, s.outcome.resumed, Some(RequestFor(p)));
      if !moved {
        FailedReplacementKeepsPart(s.trail, env, s.outcome.bytes, s.outcome.resumed, Some(RequestFor(p)));
      }
    }
    FateCarriesOver(Now(t), p, remote, ex, s.outcome, moved, Attempted(cfg, t, env).verdict);
  }

  /** The output that decides about the replacement is the one there was at first. */
  lemma MovingIsTheSame(t: Trail, u: Trail, later: Trail, fault: Fault)
    requires QuietlyContinues(t, u) && SameBesidesPart(Now(later), Now(u))
    ensures ReplacementWorks(Now(later), fault) <==> ReplacementWorks(Now(t), fault)
  {
    QuietKeepsOutput(Now(u), Now(t));
    OutputOutlivesPart(Now(later), Now(u));
  }

  /** An answer that ended well but is not the file announced, or no such file, leaves nothing to build on. */
  lemma WrongAnswerIsThrownAway(cfg: Config, t: Trail, env: Env, p: Plan)
    requires Streams(cfg, t, env, p) && !RecordThrows(cfg, FetchMetadata(env.head).remote, env.metaFault)
    requires env.exchange.response.status < 400 && env.last == NOTHING_KEPT
    ensures p.Resume? ==> Part in Now(t)
    ensures var remote, ex, g := FetchMetadata(env.head).remote, env.exchange, Now(Attempted(cfg, t, env).trail);
            && Ended(p, remote, ex)
            && !(HasAnnouncedSize(Now(t), p, remote, ex) && IsPayload(Arrived(Now(t), p, remote, ex))) ==>
              Part !in g && Meta !in g
  {
    hide Attempted, Tried, FetchMetadata, RecordThrows, Streams, Ended, HasAnnouncedSize, IsPayload, Arrived, Body;
    AnswerVerdict(cfg, t, env, p);
    ValidationFailureRemovesPartial(cfg, t, env);
  }

  /** A good file that cannot be moved into place stays where it is, with its record. */
  lemma GoodFileSurvivesItsReplacement(cfg: Config, t: Trail, env: Env, p: Plan)
    requires Streams(cfg, t, env, p) && !RecordThrows(cfg, FetchMetadata(env.head).remote, env.metaFault)
    requires p.Resume? ==> Part in Now(t)
    requires Acceptable(Now(t), FetchMetadata(env.head).remote, JobFor(p, FetchMetadata(env.head).remote), env.exchange)
    requires !ReplacementWorks(Now(t), env.replaceFault)
    ensures var a := Attempted(cfg, t, env);
            && a.verdict == Failed(OtherError)
            && Part in Now(a.trail)
            && Now(a.trail)[Part] == Arrived(Now(t), p, FetchMetadata(env.head).remote, env.exchange)
  {
    var remote, ex := FetchMetadata(env.head).remote, env.exchange;
    hide Stream, FetchMetadata, Body, RecordThrows, Streams, RecordedIfDue, StartWorks,
      WritesWork, HasSignature, ExpectedTotal, Finished, Quiet, ReplacementWorks;
    var w := RecordedIfDue(cfg, Planned(t, p, env.first), remote, env.metaFault);
    var s := Stream(w.0, remote, JobFor(p, remote), ex);
    AttemptStreams(cfg, t, env, p);
    StreamVerdict(Now(t), w.0, remote, p, ex);
    MovingIsTheSame(t, w.0, s.trail, env.replaceFault);
    FailedReplacementKeepsPart(s.trail, env, s.outcome.bytes, s.outcome.resumed, Some(RequestFor(p)));
  }

  /** A record that cannot be written ends the attempt before any GET, as a local failure. */
  lemma UnwrittenRecordVerdict(cfg: Config, t: Trail, env: Env, p: Plan)
    requires Streams(cfg, t, env, p) && RecordThrows(cfg, FetchMetadata(env.head).remote, env.metaFault)
    ensures var a := Attempted(cfg, t, env); a.verdict == Failed(OtherError) && a.request == None
  {
    hide Stream, FetchMetadata, RecordThrows, Streams, RecordedIfDue;
    AttemptStreams(cfg, t, env, p);
  }

  // ----- the run

  const STATUSES_TRIED_AGAIN := {408, 429, 500, 502, 503, 504}
  const CURL_CODES_TRIED_AGAIN := {5, 6, 7, 16, 18, 28, 52, 55, 56}

  /** The failures after which a run goes on: a wrong size, or what is expected to pass. */
  predicate MayPass(error: Failure) {
    || error == IntegrityError
    || (error.HttpStatusError? && error.status in STATUSES_TRIED_AGAIN)
    || (error.NetworkError? && error.code in CURL_CODES_TRIED_AGAIN)
  }

  /** Whole seconds before the next attempt: what the server asked for, at least one, or 1, 2, 4 and then 8. */
  function WaitFor(error: Failure, attempt: nat): nat {
    if error.HttpStatusError? && error.retryAfter.Some? then
      if error.retryAfter.value == 0 then 1 else error.retryAfter.value
    else if attempt <= 1 then 1 else if attempt == 2 then 2 else if attempt == 3 then 4 else 8
  }

  lemma {:induction false} BackoffIs(attempt: nat)
    requires attempt >= 1
    ensures Backoff(attempt) == if attempt == 1 then 1 else if attempt == 2 then 2 else if attempt == 3 then 4 else 8
  {
    assert Pow2(0) == 1 && Pow2(1) == 2 && Pow2(2) == 4 && Pow2(3) == 8;
    if attempt > 4 {
      BackoffStaysAtBound(4, attempt);
    }
  }

  /**
   Exactly when a run goes on after an attempt, and how long it waits first: the failure may pass, and fewer than
   retry_count retries have been made, ten at most.
   */
  lemma RunGoesOnIff(cfg: Config, t: Trail, envs: seq<Env>, attempt: nat)
    requires 1 <= attempt <= TotalAttempts(cfg) <= |envs|
    ensures var a, r := Attempted(cfg, t, envs[attempt - 1]), RunFrom(cfg, t, envs, attempt);
            && (r.waits != [] <==>
                  a.verdict.Failed? && MayPass(a.verdict.error) && attempt <= cfg.retryCount && attempt <= 10)
            && (r.waits != [] ==> r.waits[0] == WaitFor(a.verdict.error, attempt))
            && (r.waits == [] ==> r.trail == a.trail && r.result == ResultOf(a.verdict, attempt))
  {
    hide Attempted;
    BackoffIs(attempt);
  }

  /** What the first answer makes of a run with a retry left. */
  lemma FirstAnswerDecides(cfg: Config, f: Files, envs: seq<Env>, p: Plan)
    requires TotalAttempts(cfg) <= |envs| && cfg.retryCount >= 1
    requires Streams(cfg, [f], envs[0], p) && !RecordThrows(cfg, FetchMetadata(envs[0].head).remote, envs[0].metaFault)
    ensures p.Resume? ==> Part in f
    ensures var waits, ex := RunTarget(cfg, false, f, envs).waits, envs[0].exchange;
            var remote, status := FetchMetadata(envs[0].head).remote, ex.response.status;
            waits != [] <==>
              if status < 400 then
                || (ReceivedLocally(JobFor(p, remote), ex) && ex.code in CURL_CODES_TRIED_AGAIN)
                || (Ended(p, remote, ex) && !HasAnnouncedSize(f, p, remote, ex))
              else if status == 416 && Body(ex.chunks) != "" then false
              else if ex.code != CURLE_OK then ex.code in CURL_CODES_TRIED_AGAIN
              else if status == 416 then p.Resume?
              else status in STATUSES_TRIED_AGAIN
  {
    var remote, status := FetchMetadata(envs[0].head).remote, envs[0].exchange.response.status;
    hide Attempted, FetchMetadata, RecordThrows, Streams, Ended, HasAnnouncedSize, IsPayload, Arrived, Body, RunFrom,
      ReceivedLocally, RetryAfterSeconds, ReplacementWorks, WaitFor, ResultOf, RecordedIfDue;
    RunGoesOnIff(cfg, [f], envs, 1);
    AttemptStreams(cfg, [f], envs[0], p);
    if status < 400 {
      AnswerVerdict(cfg, [f], envs[0], p);
      OkIsNotTriedAgain();
    } else {
      ErrorVerdict(cfg, [f], envs[0], p);
    }
  }

  lemma OkIsNotTriedAgain()
    ensures CURLE_OK == 0 && 0 !in CURL_CODES_TRIED_AGAIN
  {
  }

  /** A run that makes no GET in its first attempt makes only that one. */
  lemma WithoutRequestTheRunEnds(cfg: Config, f: Files, envs: seq<Env>)
    requires TotalAttempts(cfg) <= |envs| && Attempted(cfg, [f], envs[0]).request.None?
    ensures RunTarget(cfg, false, f, envs).waits == []
  {
    hide FetchMetadata, Decide, RunFrom, RetryAfterSeconds, RecordThrows, SkipsExisting, ContinuesWithoutHead;
    RunGoesOnIff(cfg, [f], envs, 1);
    var fetched := FetchMetadata(envs[0].head);
    if fetched.HeadRejected? {
      HeadErrorIsFinal(envs[0].head);
    } else if GoesOn(cfg, f, envs[0]) {
      AttemptAsksIff(cfg, [f], envs[0]);
      var p := Decide(cfg.resume, f, fetched.remote);
      if p.Promote? {
        PromotionIff(cfg, [f], envs[0]);
      } else {
        UnwrittenRecordVerdict(cfg, [f], envs[0], p);
      }
    }
  }

  lemma HeadErrorIsFinal(head: HeadOutcome)
    requires FetchMetadata(head).HeadRejected?
    ensures !MayPass(FetchMetadata(head).error) && !RemovesPartial(FetchMetadata(head).error)
  {
  }

  /** A Retry-After of whole seconds is waited for, but for one second at least and five minutes at most. */
  lemma RetryAfterIsObeyed(cfg: Config, f: Files, envs: seq<Env>, p: Plan, seconds: nat)
    requires TotalAttempts(cfg) <= |envs| && cfg.retryCount >= 1 && seconds < Text.UINT64_LIMIT
    requires Streams(cfg, [f], envs[0], p) && !RecordThrows(cfg, FetchMetadata(envs[0].head).remote, envs[0].metaFault)
    requires envs[0].exchange.response.status in STATUSES_TRIED_AGAIN && envs[0].exchange.code == CURLE_OK
    requires Header(Returned(envs[0].exchange).headers, "retry-after") == Some(Text.Decimal(seconds))
    ensures var waits := RunTarget(cfg, false, f, envs).waits;
            waits != [] && waits[0] == if seconds == 0 then 1 else if seconds > 300 then 300 else seconds
  {
    hide Attempted, FetchMetadata, RecordThrows, Streams, Body, RunFrom, Text.Decimal, Text.ParseUint;
    RunGoesOnIff(cfg, [f], envs, 1);
    ErrorVerdict(cfg, [f], envs[0], p);
    Text.ParsePrintedUint(seconds);
  }

  /** What the run reports: the verdict and the number of its last attempt, and nothing of the earlier ones. */
  lemma ResultReports(verdict: Verdict, attempt: nat)
    ensures var r := ResultOf(verdict, attempt);
            && (r.status.DownloadedStatus? <==> verdict.Downloaded?) && (r.status.SkippedStatus? <==> verdict.Skipped?)
            && (verdict.Downloaded? ==>
                  r.bytes == verdict.bytes && r.resumed == verdict.resumed && r.attempts == attempt && r.error == None)
            && (verdict.Skipped? ==> r.bytes == 0 && !r.resumed && r.attempts == 0 && r.error == None)
            && (verdict.Failed? ==>
                  r.bytes == 0 && !r.resumed && r.attempts == attempt && r.error == Some(verdict.error))
  {
  }
}
