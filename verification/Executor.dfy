/**
 Downloading one target (TargetDownloadExecutor): the attempt, its error handling and the retry loop.

 Each step is specified by a function from trail to trail and carried out by a method of the class at the
 end of the module, which is proved to follow its function step by step.
 */
module Executor {
  import opened Wrappers
  import opened Http
  import opened ContentRange
  import opened PartialMetadata
  import opened FileSystem
  import opened SafeReplace
  import opened Validation
  import opened Provider
  import opened Transfer

  const MAX_RETRY_COUNT := 10
  const MAX_BACKOFF_SECONDS := 8

  /** The parts of DownloadRequest that steer a run. */
  datatype Config = Config(resume: bool, overwrite: bool, retryCount: int)

  /** How writing ".part.meta" goes; the final flush is unchecked, so a record may be cut short in silence. */
  datatype MetaFault = MetaWritten | MetaOpenThrows | MetaWriteThrows(reached: nat) | MetaCutShort(reached: nat)

  /**
   Everything the outside world decides during one attempt. The first removal of partial state comes with the
   skip or the plan, the last one with the success or the clean-up after a failure.
   */
  datatype Env = Env(
    head: HeadOutcome,
    first: Kept,
    metaFault: MetaFault,
    exchange: Exchange,
    replaceFault: Fault,
    last: Kept)

  // ----- deciding what to do

  predicate SkipsExisting(cfg: Config, f: Files, remote: Remote) {
    && Output in f
    && remote.length.Some?
    && IsValidFile(f, Output, remote.length)
    && !cfg.overwrite
  }

  /** The transfer plan; a fresh start says whether partial state is discarded first. */
  datatype Plan = Fresh(discard: bool) | Promote | Resume(start: nat, ifRange: Option<string>)

  function LoadFile(f: Files): Option<Stored> {
    if Meta in f then Load(f[Meta]) else None
  }

  function Decide(resume: bool, f: Files, remote: Remote): (p: Plan)
    ensures !p.Fresh? ==> resume && Part in f
    ensures p == Fresh(false) ==> Part !in f
  {
    if !resume then Fresh(true)
    else if Part !in f then Fresh(false)
    else
      var size := |f[Part]|;
      if size == 0 || (remote.length.Some? && size > remote.length.value) || !HasIdentity(remote) then Fresh(true)
      else
        var stored := LoadFile(f);
        if stored.None? || !Matches(stored.value, remote) then Fresh(true)
        else if remote.length.Some? && size == remote.length.value then
          if IsValidFile(f, Part, remote.length) then Promote else Fresh(true)
        else if remote.acceptsRanges == Some(false) then Fresh(true)
        else Resume(size, ChooseIfRange(remote))
  }

  function Planned(t: Trail, p: Plan, kept: Kept): Trail {
    if p == Fresh(true) then PartialRemoved(t, kept) else t
  }

  function JobFor(p: Plan, remote: Remote): Job {
    Job(p.Resume?, if p.Resume? then p.start else 0, remote.length)
  }

  function RequestFor(p: Plan): Request {
    if p.Resume? then Request(p.start, p.ifRange) else Request(0, None)
  }

  // ----- the transfer

  /** The text that a write of the record leaves behind, if it gets as far as opening the file. */
  function RecordText(remote: Remote, fault: MetaFault): (text: Bytes)
    ensures text <= MetadataText(remote)
  {
    var text := MetadataText(remote);
    if (fault.MetaWriteThrows? || fault.MetaCutShort?) && fault.reached < |text| then text[..fault.reached] else text
  }

  /** write_partial_metadata, and whether it threw. */
  function MetadataWritten(t: Trail, remote: Remote, fault: MetaFault): (Trail, bool) {
    if fault.MetaOpenThrows? then (t, true)
    else (Appended(Truncated(t, Meta), Meta, RecordText(remote, fault)), fault.MetaWriteThrows?)
  }

  datatype StreamOutcome = Accepted(bytes: nat, resumed: bool) | Rejected(error: Failure)

  datatype Streamed = Streamed(trail: Trail, outcome: StreamOutcome)

  /** stream_download */
  function Stream(t: Trail, remote: Remote, job: Job, ex: Exchange): Streamed {
    var p := Perform(t, job, ex);
    var c := Closed(p.trail, p.sink, ex.flushLoss);
    if p.outcome.Aborted? then Streamed(c.0, Rejected(p.outcome.error))
    else if c.1 then Streamed(c.0, Rejected(OtherError))
    else Judged(c.0, remote, job, Returned(ex), if p.sink.Open? then p.sink.written else 0, ex.refused)
  }

  /** The checks made on ".part" once the transfer has ended without an exception. */
  function Judged(t: Trail, remote: Remote, job: Job, response: Response, written: nat, kept: Kept): Streamed {
    if job.attemptedResume && response.status == 416 then
      if remote.length.Some? && IsValidFile(Now(t), Part, remote.length) then Streamed(t, Accepted(0, true))
      else Streamed(PartialRemoved(t, kept), Rejected(IntegrityError))
    else if response.status >= 400 then
      Streamed(t, Rejected(HttpStatusError(response.status, RetryAfterSeconds(response.headers))))
    else
      var expected := ExpectedTotal(response, remote.length, job.start);
      if expected.None? then Streamed(t, Rejected(IntegrityError))
      else if Part !in Now(t) then Streamed(t, Rejected(OtherError))
      else if |Now(t)[Part]| != expected.value then Streamed(t, Rejected(IntegrityError))
      else if !IsValidFile(Now(t), Part, expected) then Streamed(t, Rejected(PayloadError))
      else Streamed(t, Accepted(written, Appends(job, response)))
  }

  // ----- one attempt

  datatype Verdict = Skipped | Downloaded(bytes: nat, resumed: bool) | Failed(error: Failure)

  datatype Attempt = Attempt(trail: Trail, verdict: Verdict, request: Option<Request>)

  function Finished(t: Trail, env: Env, bytes: nat, resumed: bool, request: Option<Request>): Attempt {
    var r := Replaced(t, env.replaceFault);
    if r.1 then Attempt(r.0, Failed(OtherError), request)
    else Attempt(PartialRemoved(r.0, env.last), Downloaded(bytes, resumed), request)
  }

  /** The transfer part of an attempt: record whose bytes these will be, fetch them, put them in place. */
  function Transferred(cfg: Config, t: Trail, remote: Remote, p: Plan, env: Env): Attempt {
    var w := if cfg.resume && HasIdentity(remote) then MetadataWritten(t, remote, env.metaFault) else (t, false);
    if w.1 then Attempt(w.0, Failed(OtherError), None)
    else
      var s := Stream(w.0, remote, JobFor(p, remote), env.exchange);
      match s.outcome
      case Rejected(error) => Attempt(s.trail, Failed(error), Some(RequestFor(p)))
      case Accepted(bytes, resumed) => Finished(s.trail, env, bytes, resumed, Some(RequestFor(p)))
  }

  function Tried(cfg: Config, t: Trail, env: Env): Attempt {
    match FetchMetadata(env.head)
    case HeadRejected(error) => Attempt(t, Failed(error), None)
    case Metadata(remote) =>
      if SkipsExisting(cfg, Now(t), remote) then Attempt(PartialRemoved(t, env.first), Skipped, None)
      else
        var p := Decide(cfg.resume, Now(t), remote);
        if p.Promote? then Finished(t, env, 0, true, None)
        else Transferred(cfg, Planned(t, p, env.first), remote, p, env)
  }

  /** should_remove_partial */
  predicate RemovesPartial(error: Failure) {
    error.IntegrityError? || error.PayloadError?
  }

  /** An attempt together with the catch block that cleans up after it. */
  function Attempted(cfg: Config, t: Trail, env: Env): Attempt {
    var a := Tried(cfg, t, env);
    if a.verdict.Failed? && RemovesPartial(a.verdict.error) then a.(trail := PartialRemoved(a.trail, env.last)) else a
  }

  // ----- the retry loop

  predicate IsRetryableStatus(status: int) {
    status == 408 || status == 429 || status == 500 || status == 502 || status == 503 || status == 504
  }

  /**
   libcurl's codes for proxy and host resolution, connection, HTTP/2 framing, partial file, timeout, empty
   reply, send and receive errors. CURLE_HTTP2_STREAM is an enumerator and not a macro, so its conditionally
   compiled case is never compiled in.
   */
  predicate IsRetryableCode(code: int) {
    || code == 5 || code == 6 || code == 7 || code == 16 || code == 18 || code == 28
    || code == 52 || code == 55 || code == 56
  }

  predicate IsRetryable(error: Failure) {
    match error
    case IntegrityError => true
    case HttpStatusError(status, _) => IsRetryableStatus(status)
    case NetworkError(code) => IsRetryableCode(code)
    case _ => false
  }

  function Pow2(n: nat): (p: nat)
    ensures p >= 1
  {
    if n == 0 then 1 else 2 * Pow2(n - 1)
  }

  /** The wait after failed attempt number `attempt`: doubling from one second, at most eight. */
  function Backoff(attempt: nat): (s: nat)
    requires attempt >= 1
  {
    if Pow2(attempt - 1) < MAX_BACKOFF_SECONDS then Pow2(attempt - 1) else MAX_BACKOFF_SECONDS
  }

  /** bounded_retry_backoff_seconds: the doubling loop stops as soon as the bound is reached. */
  method BoundedRetryBackoff(attempt: nat) returns (seconds: nat)
    requires attempt >= 1
    ensures seconds == Backoff(attempt)
  {
    seconds := 1;
    var current := 1;
    while current < attempt && seconds < MAX_BACKOFF_SECONDS
      invariant 1 <= current <= attempt
      invariant seconds == Backoff(current)
    {
      seconds := if seconds * 2 < MAX_BACKOFF_SECONDS then seconds * 2 else MAX_BACKOFF_SECONDS;
      current := current + 1;
    }
    BackoffStaysAtBound(current, attempt);
  }

  lemma {:induction false} BackoffStaysAtBound(a: nat, b: nat)
    requires 1 <= a <= b
    ensures Backoff(a) == MAX_BACKOFF_SECONDS ==> Backoff(b) == MAX_BACKOFF_SECONDS
    decreases b
  {
    if a < b {
      BackoffStaysAtBound(a, b - 1);
    }
  }

  function WaitAfter(error: Failure, attempt: nat): nat
    requires attempt >= 1
  {
    if error.HttpStatusError? && error.retryAfter.Some? then
      if error.retryAfter.value < 1 then 1 else error.retryAfter.value
    else Backoff(attempt)
  }

  function TotalAttempts(cfg: Config): (n: nat)
    ensures 1 <= n <= MAX_RETRY_COUNT + 1
  {
    1 + if cfg.retryCount < 0 then 0 else if cfg.retryCount > MAX_RETRY_COUNT then MAX_RETRY_COUNT else cfg.retryCount
  }

  datatype Status = DownloadedStatus | SkippedStatus | FailedStatus

  /** DownloadResult; the error stands for its error_message, which is empty unless the run failed. */
  datatype Result = Result(status: Status, bytes: nat, attempts: nat, resumed: bool, error: Option<Failure>)

  /** A run: the trail it leaves, its result, the GET requests it made and the waits between attempts. */
  datatype Run = Run(trail: Trail, result: Result, requests: seq<Request>, waits: seq<nat>)

  function Sent(a: Attempt): seq<Request> {
    if a.request.Some? then [a.request.value] else []
  }

  predicate Retries(cfg: Config, a: Attempt, attempt: nat) {
    a.verdict.Failed? && IsRetryable(a.verdict.error) && attempt < TotalAttempts(cfg)
  }

  function ResultOf(verdict: Verdict, attempt: nat): Result {
    match verdict
    case Skipped => Result(SkippedStatus, 0, 0, false, None)
    case Downloaded(bytes, resumed) => Result(DownloadedStatus, bytes, attempt, resumed, None)
    case Failed(error) => Result(FailedStatus, 0, attempt, false, Some(error))
  }

  function RunFrom(cfg: Config, t: Trail, envs: seq<Env>, attempt: nat): Run
    requires 1 <= attempt <= TotalAttempts(cfg) <= |envs|
    decreases TotalAttempts(cfg) - attempt
  {
    var a := Attempted(cfg, t, envs[attempt - 1]);
    if Retries(cfg, a, attempt) then
      var rest := RunFrom(cfg, a.trail, envs, attempt + 1);
      Run(rest.trail, rest.result, Sent(a) + rest.requests, [WaitAfter(a.verdict.error, attempt)] + rest.waits)
    else Run(a.trail, ResultOf(a.verdict, attempt), Sent(a), [])
  }

  const LOCKED := Result(FailedStatus, 0, 1, false, Some(OtherError))

  /** run: a target locked by another process fails at once; the lock is kept over all attempts. */
  function RunTarget(cfg: Config, lockBusy: bool, f: Files, envs: seq<Env>): Run
    requires TotalAttempts(cfg) <= |envs|
  {
    if lockBusy then Run([f], LOCKED, [], [])
    else RunFrom(cfg, [f], envs, 1)
  }

  // ----- the same as the program does it

  class TargetDownloadExecutor {
    const cfg: Config
    const disk: Disk

    constructor (cfg: Config, disk: Disk)
      ensures this.cfg == cfg && this.disk == disk
    {
      this.cfg, this.disk := cfg, disk;
    }

    method MaybeSkipExistingOutput(remote: Remote, kept: Kept) returns (skipped: bool)
      requires disk.Valid()
      modifies disk
      ensures disk.Valid() && skipped == SkipsExisting(cfg, Now(old(disk.trail)), remote)
      ensures disk.trail == if skipped then PartialRemoved(old(disk.trail), kept) else old(disk.trail)
    {
      if Output !in disk.files {
        return false;
      }
      if remote.length.None? {
        return false;
      }
      if IsValidFile(disk.files, Output, remote.length) && !cfg.overwrite {
        disk.RemovePartialState(kept);
        return true;
      }
      return false;
    }

    method PrepareTransferPlan(remote: Remote, kept: Kept) returns (plan: Plan)
      requires disk.Valid()
      modifies disk
      ensures disk.Valid() && plan == Decide(cfg.resume, Now(old(disk.trail)), remote)
      ensures disk.trail == Planned(old(disk.trail), plan, kept)
    {
      if !cfg.resume || Part !in disk.files {
        if !cfg.resume {
          disk.RemovePartialState(kept);
        }
        return Fresh(!cfg.resume);
      }
      var currentSize := |disk.files[Part]|;
      if currentSize == 0 {
        disk.RemovePartialState(kept);
        return Fresh(true);
      }
      if remote.length.Some? && currentSize > remote.length.value {
        disk.RemovePartialState(kept);
        return Fresh(true);
      }
      if !HasIdentity(remote) {
        disk.RemovePartialState(kept);
        return Fresh(true);
      }
      var stored := None;
      if Meta in disk.files {
        stored := LoadMetadata(disk.files[Meta]);
      }
      if stored.None? {
        disk.RemovePartialState(kept);
        return Fresh(true);
      }
      if !Matches(stored.value, remote) {
        disk.RemovePartialState(kept);
        return Fresh(true);
      }
      if remote.length.Some? && currentSize == remote.length.value {
        if IsValidFile(disk.files, Part, remote.length) {
          return Promote;
        }
        disk.RemovePartialState(kept);
        return Fresh(true);
      }
      if remote.acceptsRanges.Some? && !remote.acceptsRanges.value {
        disk.RemovePartialState(kept);
        return Fresh(true);
      }
      return Resume(currentSize, ChooseIfRange(remote));
    }

    method WritePartialMetadata(remote: Remote, fault: MetaFault) returns (threw: bool)
      requires disk.Valid()
      modifies disk
      ensures disk.Valid() && (disk.trail, threw) == MetadataWritten(old(disk.trail), remote, fault)
    {
      if fault.MetaOpenThrows? {
        return true;
      }
      disk.Truncate(Meta);
      var text := MetadataText(remote);
      if !fault.MetaWritten? && fault.reached < |text| {
        text := text[..fault.reached];
      }
      disk.Append(Meta, text);
      return fault.MetaWriteThrows?;
    }

    method StreamDownload(remote: Remote, job: Job, ex: Exchange) returns (outcome: StreamOutcome)
      requires disk.Valid()
      modifies disk
      ensures disk.Valid()
      ensures Streamed(disk.trail, outcome) == Stream(old(disk.trail), remote, job, ex)
    {
      var handler := new FileResponseHandler(disk, job);
      var got := PerformGet(handler, ex);
      var closeThrew := handler.Close(ex.flushLoss);
      if got.Aborted? {
        return Rejected(got.error);
      }
      if closeThrew {
        return Rejected(OtherError);
      }
      var response := Returned(ex);
      if job.attemptedResume && response.status == 416 {
        if remote.length.None? {
          disk.RemovePartialState(ex.refused);
          return Rejected(IntegrityError);
        }
        if IsValidFile(disk.files, Part, remote.length) {
          return Accepted(0, true);
        }
        disk.RemovePartialState(ex.refused);
        return Rejected(IntegrityError);
      }
      if response.status >= 400 {
        return Rejected(HttpStatusError(response.status, RetryAfterSeconds(response.headers)));
      }
      var resumed := job.attemptedResume && response.status == 206;
      var expected := ExpectedTotal(response, remote.length, job.start);
      if expected.None? {
        return Rejected(IntegrityError);
      }
      if Part !in disk.files {
        return Rejected(OtherError);
      }
      if |disk.files[Part]| != expected.value {
        return Rejected(IntegrityError);
      }
      if !IsValidFile(disk.files, Part, expected) {
        return Rejected(PayloadError);
      }
      return Accepted(handler.bytesWritten, resumed);
    }

    /** The body of the try block. */
    method TryOnce(env: Env) returns (verdict: Verdict, request: Option<Request>)
      requires disk.Valid()
      modifies disk
      ensures disk.Valid()
      ensures Attempt(disk.trail, verdict, request) == Tried(cfg, old(disk.trail), env)
    {
      request := None;
      var fetched := FetchMetadata(env.head);
      if fetched.HeadRejected? {
        return Failed(fetched.error), None;
      }
      var remote := fetched.remote;
      var skipped := MaybeSkipExistingOutput(remote, env.first);
      if skipped {
        return Skipped, None;
      }
      var plan := PrepareTransferPlan(remote, env.first);
      if plan.Promote? {
        var promoteThrew := SafeReplaceFile(disk, env.replaceFault);
        if promoteThrew {
          return Failed(OtherError), None;
        }
        disk.RemovePartialState(env.last);
        return Downloaded(0, true), None;
      }
      if cfg.resume && HasIdentity(remote) {
        var writeThrew := WritePartialMetadata(remote, env.metaFault);
        if writeThrew {
          return Failed(OtherError), None;
        }
      }
      request := Some(RequestFor(plan));
      var outcome := StreamDownload(remote, JobFor(plan, remote), env.exchange);
      if outcome.Rejected? {
        return Failed(outcome.error), request;
      }
      var replaceThrew := SafeReplaceFile(disk, env.replaceFault);
      if replaceThrew {
        return Failed(OtherError), request;
      }
      disk.RemovePartialState(env.last);
      return Downloaded(outcome.bytes, outcome.resumed), request;
    }

    /** One turn of the retry loop: the try block and the clean-up of its catch block. */
    method AttemptOnce(env: Env) returns (verdict: Verdict, request: Option<Request>)
      requires disk.Valid()
      modifies disk
      ensures disk.Valid()
      ensures Attempt(disk.trail, verdict, request) == Attempted(cfg, old(disk.trail), env)
    {
      hide Tried;
      verdict, request := TryOnce(env);
      if verdict.Failed? && RemovesPartial(verdict.error) {
        disk.RemovePartialState(env.last);
      }
    }

    method RetryWaitSeconds(error: Failure, attempt: nat) returns (seconds: nat)
      requires attempt >= 1
      ensures seconds == WaitAfter(error, attempt)
    {
      if error.HttpStatusError? && error.retryAfter.Some? {
        return if error.retryAfter.value < 1 then 1 else error.retryAfter.value;
      }
      seconds := BoundedRetryBackoff(attempt);
    }

    /** run, with what it asked for and how long it slept. */
    method RunAll(lockBusy: bool, envs: seq<Env>)
      returns (result: Result, requests: seq<Request>, waits: seq<nat>)
      requires disk.Valid() && TotalAttempts(cfg) <= |envs|
      modifies disk
      ensures disk.Valid()
      ensures lockBusy ==> disk.trail == old(disk.trail) && result == LOCKED && requests == [] && waits == []
      ensures !lockBusy ==>
                Run(disk.trail, result, requests, waits) == RunFrom(cfg, old(disk.trail), envs, 1)
    {
      hide Attempted, WaitAfter, IsRetryable;
      requests, waits := [], [];
      if lockBusy {
        return LOCKED, [], [];
      }
      var attempt := 1;
      ghost var whole := RunFrom(cfg, disk.trail, envs, 1);
      while true
        invariant disk.Valid() && 1 <= attempt <= TotalAttempts(cfg)
        invariant whole == Continued(requests, waits, RunFrom(cfg, disk.trail, envs, attempt))
        decreases TotalAttempts(cfg) - attempt
      {
        ghost var before := disk.trail;
        var verdict, request := AttemptOnce(envs[attempt - 1]);
        ghost var a := Attempt(disk.trail, verdict, request);
        ghost var askedBefore, waitedBefore := requests, waits;
        if request.Some? {
          requests := requests + [request.value];
        }
        assert requests == askedBefore + Sent(a);
        if verdict.Failed? && IsRetryable(verdict.error) && attempt < TotalAttempts(cfg) {
          var wait := RetryWaitSeconds(verdict.error, attempt);
          waits := waits + [wait];
          ghost var rest := RunFrom(cfg, disk.trail, envs, attempt + 1);
          assert RunFrom(cfg, before, envs, attempt) ==
                 Run(rest.trail, rest.result, Sent(a) + rest.requests, [wait] + rest.waits);
          ContinuedIsAssociative(askedBefore, waitedBefore, Sent(a), [wait], rest);
          attempt := attempt + 1;
        } else {
          return ResultOf(verdict, attempt), requests, waits;
        }
      }
    }
  }

  ghost function Continued(requests: seq<Request>, waits: seq<nat>, rest: Run): Run {
    Run(rest.trail, rest.result, requests + rest.requests, waits + rest.waits)
  }

  lemma ContinuedIsAssociative(r0: seq<Request>, w0: seq<nat>, r1: seq<Request>, w1: seq<nat>, rest: Run)
    ensures Continued(r0, w0, Continued(r1, w1, rest)) == Continued(r0 + r1, w0 + w1, rest)
  {
    assert r0 + (r1 + rest.requests) == r0 + r1 + rest.requests;
    assert w0 + (w1 + rest.waits) == w0 + w1 + rest.waits;
  }
}
