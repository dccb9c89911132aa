/** The retry loop: how many attempts it makes, how long it waits, and what it never retries. */
module Retry {
  import opened Wrappers
  import opened Http
  import opened PartialMetadata
  import opened FileSystem
  import opened Provider
  import opened Transfer
  import opened TransferProperties
  import opened Executor
  import opened Acceptance

  function Sum(s: seq<nat>): nat {
    if s == [] then 0 else s[0] + Sum(s[1..])
  }

  /** Waits are whole seconds between one and five minutes. */
  ghost predicate WaitsBounded(waits: seq<nat>) {
    forall i | 0 <= i < |waits| :: 1 <= waits[i] <= MAX_RETRY_AFTER_SECONDS
  }

  /** A status error carries the capped Retry-After of the response it came from, and only that. */
  ghost predicate ErrorFromResponses(error: Failure, env: Env) {
    error.HttpStatusError? && error.retryAfter.Some? ==>
      || (env.head.HeadAnswered? && error.retryAfter == RetryAfterSeconds(env.head.response.headers))
      || error.retryAfter == RetryAfterSeconds(Returned(env.exchange).headers)
  }

  lemma AttemptErrors(cfg: Config, t: Trail, env: Env)
    ensures var v := Attempted(cfg, t, env).verdict;
            v.Failed? ==> ErrorFromResponses(v.error, env)
  {
    hide Perform, Closed, Decide, MetadataWritten, SafeReplace.Replaced, RetryAfterSeconds, SkipsExisting,
      RemoteFromHeaders, ContentRange.ExpectedTotal, Validation.IsValidFile;
    match FetchMetadata(env.head)
    case HeadRejected(_) =>
    case Metadata(remote) =>
      var p := Decide(cfg.resume, Now(t), remote);
      var t1 := Planned(t, p, env.first);
      var w := if cfg.resume && HasIdentity(remote) then MetadataWritten(t1, remote, env.metaFault) else (t1, false);
      PerformFailures(w.0, JobFor(p, remote), env.exchange);
  }

  lemma {:induction false} BackoffIsBounded(attempt: nat)
    requires attempt >= 1
    ensures 1 <= Backoff(attempt) <= MAX_BACKOFF_SECONDS
  {
  }

  lemma WaitIsBounded(error: Failure, attempt: nat, env: Env)
    requires attempt >= 1 && ErrorFromResponses(error, env)
    ensures 1 <= WaitAfter(error, attempt) <= MAX_RETRY_AFTER_SECONDS
  {
    BackoffIsBounded(attempt);
  }

  lemma {:induction false} RunFromIsBounded(cfg: Config, t: Trail, envs: seq<Env>, attempt: nat)
    requires 1 <= attempt <= TotalAttempts(cfg) <= |envs|
    ensures var r := RunFrom(cfg, t, envs, attempt);
            && attempt + |r.waits| <= TotalAttempts(cfg)
            && WaitsBounded(r.waits)
            && |r.requests| <= |r.waits| + 1
            && r.result.attempts == (if r.result.status.SkippedStatus? then 0 else attempt + |r.waits|)
    decreases TotalAttempts(cfg) - attempt
  {
    hide Attempted, WaitAfter, IsRetryable, ErrorFromResponses;
    var a := Attempted(cfg, t, envs[attempt - 1]);
    AttemptErrors(cfg, t, envs[attempt - 1]);
    if Retries(cfg, a, attempt) {
      WaitIsBounded(a.verdict.error, attempt, envs[attempt - 1]);
      RunFromIsBounded(cfg, a.trail, envs, attempt + 1);
    }
  }

  lemma {:induction false} SumBound(waits: seq<nat>, bound: nat)
    requires forall i | 0 <= i < |waits| :: waits[i] <= bound
    ensures Sum(waits) <= bound * |waits|
    decreases |waits|
  {
    if waits != [] {
      SumBound(waits[1..], bound);
    }
  }

  /**
   A run makes between one and retry_count + 1 attempts (eleven at most), reports that number unless it
   skipped, sends at most one GET per attempt and waits at most five minutes before each retry.
   */
  lemma RunIsBounded(cfg: Config, lockBusy: bool, f: Files, envs: seq<Env>)
    requires TotalAttempts(cfg) <= |envs|
    ensures var r := RunTarget(cfg, lockBusy, f, envs);
            && 1 <= |r.waits| + 1 <= TotalAttempts(cfg) <= MAX_RETRY_COUNT + 1
            && (0 <= cfg.retryCount <= MAX_RETRY_COUNT ==> |r.waits| <= cfg.retryCount)
            && r.result.attempts == (if r.result.status.SkippedStatus? then 0 else |r.waits| + 1)
            && |r.requests| <= |r.waits| + 1
            && WaitsBounded(r.waits) && Sum(r.waits) <= MAX_RETRY_AFTER_SECONDS * |r.waits|
  {
    hide RunFrom;
    if !lockBusy {
      RunFromIsBounded(cfg, [f], envs, 1);
      SumBound(RunTarget(cfg, lockBusy, f, envs).waits, MAX_RETRY_AFTER_SECONDS);
    }
  }

  /** An attempt that began at u, a state of the run, ended it with the error it reports. */
  ghost predicate FailsFrom(cfg: Config, u: Trail, env: Env, r: Run) {
    var a := Attempted(cfg, u, env);
    u <= r.trail && a.trail == r.trail && a.verdict.Failed? && r.result.error == Some(a.verdict.error)
  }

  /** The run failed in an attempt under env, and for good. */
  ghost predicate FailedIn(cfg: Config, env: Env, r: Run, mayRetry: bool) {
    && r.result.error.Some?
    && (mayRetry ==> !IsRetryable(r.result.error.value))
    && exists u: Trail :: FailsFrom(cfg, u, env, r)
  }

  lemma {:induction false} RunFromUsesRetries(cfg: Config, t: Trail, envs: seq<Env>, attempt: nat)
    requires 1 <= attempt <= TotalAttempts(cfg) <= |envs|
    ensures var r := RunFrom(cfg, t, envs, attempt);
            var last := attempt + |r.waits|;
            && last <= TotalAttempts(cfg)
            && (r.result.status.FailedStatus? <==> r.result.error.Some?)
            && (r.result.status.FailedStatus? ==> FailedIn(cfg, envs[last - 1], r, last < TotalAttempts(cfg)))
    decreases TotalAttempts(cfg) - attempt
  {
    hide Attempted, IsRetryable, WaitAfter, AcceptsOnlyChecked;
    var a := Attempted(cfg, t, envs[attempt - 1]);
    if Retries(cfg, a, attempt) {
      var rest := RunFrom(cfg, a.trail, envs, attempt + 1);
      RunFromUsesRetries(cfg, a.trail, envs, attempt + 1);
      if rest.result.status.FailedStatus? {
        var last := attempt + 1 + |rest.waits|;
        SameEnd(cfg, envs[last - 1], rest, RunFrom(cfg, t, envs, attempt), last < TotalAttempts(cfg));
      }
    } else if a.verdict.Failed? {
      AttemptContinues(cfg, t, envs[attempt - 1]);
      assert FailsFrom(cfg, t, envs[attempt - 1], RunFrom(cfg, t, envs, attempt));
    }
  }

  lemma SameEnd(cfg: Config, env: Env, rest: Run, r: Run, mayRetry: bool)
    requires FailedIn(cfg, env, rest, mayRetry) && r.trail == rest.trail && r.result == rest.result
    ensures FailedIn(cfg, env, r, mayRetry)
  {
    hide Attempted, IsRetryable;
    var u: Trail :| FailsFrom(cfg, u, env, rest);
    assert FailsFrom(cfg, u, env, r);
  }

  lemma AttemptContinues(cfg: Config, t: Trail, env: Env)
    ensures t <= Attempted(cfg, t, env).trail
  {
    hide Attempted, CheckedPart, SafeReplace.RollbackFails;
    AttemptAcceptsOnlyChecked(cfg, t, env);
  }

  /**
   No retry is given up: a run that fails reports the error of its last attempt, and if that was not attempt
   retry_count + 1 the error is not one to retry.
   */
  lemma RetriesAreUsedUp(cfg: Config, f: Files, envs: seq<Env>)
    requires TotalAttempts(cfg) <= |envs| && 0 <= cfg.retryCount <= MAX_RETRY_COUNT
    ensures var r := RunTarget(cfg, false, f, envs);
            && |r.waits| <= cfg.retryCount
            && (r.result.status.FailedStatus? <==> r.result.error.Some?)
            && (r.result.status.FailedStatus? ==> FailedIn(cfg, envs[|r.waits|], r, |r.waits| < cfg.retryCount))
  {
    hide RunFrom, FailedIn, IsRetryable;
    RunFromUsesRetries(cfg, [f], envs, 1);
  }

  ghost predicate NoRetryAfter(env: Env) {
    && (env.head.HeadAnswered? ==> RetryAfterSeconds(env.head.response.headers) == None)
    && RetryAfterSeconds(Returned(env.exchange).headers) == None
  }

  ghost predicate BacksOffFrom(waits: seq<nat>, first: nat)
    requires first >= 1
  {
    forall i | 0 <= i < |waits| :: waits[i] == Backoff(first + i)
  }

  lemma PrependBackoff(rest: seq<nat>, first: nat)
    requires first >= 1 && BacksOffFrom(rest, first + 1)
    ensures BacksOffFrom([Backoff(first)] + rest, first)
  {
    hide Backoff;
  }

  lemma {:induction false} RunFromBacksOff(cfg: Config, t: Trail, envs: seq<Env>, attempt: nat)
    requires 1 <= attempt <= TotalAttempts(cfg) <= |envs|
    requires forall k | 0 <= k < |envs| :: NoRetryAfter(envs[k])
    ensures BacksOffFrom(RunFrom(cfg, t, envs, attempt).waits, attempt)
    decreases TotalAttempts(cfg) - attempt
  {
    hide Attempted, IsRetryable, Backoff, RetryAfterSeconds;
    var a := Attempted(cfg, t, envs[attempt - 1]);
    AttemptErrors(cfg, t, envs[attempt - 1]);
    assert NoRetryAfter(envs[attempt - 1]);
    if Retries(cfg, a, attempt) {
      RunFromBacksOff(cfg, a.trail, envs, attempt + 1);
      var rest := RunFrom(cfg, a.trail, envs, attempt + 1).waits;
      PrependBackoff(rest, attempt);
      assert RunFrom(cfg, t, envs, attempt).waits == [Backoff(attempt)] + rest;
    }
  }

  /** What `count` backoffs starting with number `first` add up to. */
  function BackoffTotal(first: nat, count: nat): nat
    requires first >= 1
    decreases count
  {
    if count == 0 then 0 else Backoff(first) + BackoffTotal(first + 1, count - 1)
  }

  lemma {:induction false} SumIsBackoffTotal(waits: seq<nat>, first: nat)
    requires first >= 1 && BacksOffFrom(waits, first)
    ensures Sum(waits) == BackoffTotal(first, |waits|)
    decreases |waits|
  {
    if waits != [] {
      SumIsBackoffTotal(waits[1..], first + 1);
    }
  }

  lemma {:induction false} BackoffTotalBound(first: nat, count: nat)
    requires first >= 1
    ensures BackoffTotal(first, count) <= MAX_BACKOFF_SECONDS * count
    decreases count
  {
    if count > 0 {
      BackoffTotalBound(first + 1, count - 1);
    }
  }

  lemma TenBackoffs(count: nat)
    requires count <= MAX_RETRY_COUNT
    ensures BackoffTotal(1, count) <= 63
  {
    assert Pow2(0) == 1 && Pow2(1) == 2 && Pow2(2) == 4;
    if count > 3 {
      BackoffTotalBound(4, count - 3);
      assert BackoffTotal(1, count) == 1 + (2 + (4 + BackoffTotal(4, count - 3)));
    }
  }

  /** Without Retry-After the waits are 1, 2, 4, 8, 8, ... seconds, 63 in all at most. */
  lemma BackoffRunSleepsAtMost63(cfg: Config, lockBusy: bool, f: Files, envs: seq<Env>)
    requires TotalAttempts(cfg) <= |envs|
    requires forall k | 0 <= k < |envs| :: NoRetryAfter(envs[k])
    ensures var waits := RunTarget(cfg, lockBusy, f, envs).waits;
            && BacksOffFrom(waits, 1)
            && Sum(waits) <= 63
  {
    hide RunFrom, NoRetryAfter;
    if !lockBusy {
      var waits := RunTarget(cfg, lockBusy, f, envs).waits;
      RunFromBacksOff(cfg, [f], envs, 1);
      RunFromIsBounded(cfg, [f], envs, 1);
      SumIsBackoffTotal(waits, 1);
      TenBackoffs(|waits|);
    }
  }

  /** Every status that could be retried lets the download go on without metadata, so a rejected HEAD is final. */
  lemma HeadRejectionIsNotRetryable(head: HeadOutcome)
    requires FetchMetadata(head).HeadRejected?
    ensures !IsRetryable(FetchMetadata(head).error)
  {
  }

  lemma HeadRejectionError(head: HeadOutcome)
    requires FetchMetadata(head).HeadRejected?
    ensures FetchMetadata(head).error.HttpStatusError?
  {
  }

  /** A run that meets a rejected HEAD ends there: no GET, no retry, nothing touched. */
  lemma RejectedHeadEndsTheRun(cfg: Config, t: Trail, envs: seq<Env>, attempt: nat)
    requires 1 <= attempt <= TotalAttempts(cfg) <= |envs|
    requires FetchMetadata(envs[attempt - 1].head).HeadRejected?
    ensures var error := FetchMetadata(envs[attempt - 1].head).error;
            RunFrom(cfg, t, envs, attempt) == Run(t, Result(FailedStatus, 0, attempt, false, Some(error)), [], [])
  {
    hide FetchMetadata, IsRetryable, Transferred, Decide, Finished, SkipsExisting;
    HeadRejectionIsNotRetryable(envs[attempt - 1].head);
    HeadRejectionError(envs[attempt - 1].head);
    var error := FetchMetadata(envs[attempt - 1].head).error;
    assert Attempted(cfg, t, envs[attempt - 1]) == Attempt(t, Failed(error), None);
  }
}
