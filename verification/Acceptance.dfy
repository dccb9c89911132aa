/**
 Server-independent acceptance: for any statuses, headers, chunks and local failures, the output changes only
 by promoting a ".part" that has just been checked against an announced size and a NetCDF/HDF5 signature.
 */
module Acceptance {
  import opened Wrappers
  import opened ContentRange
  import opened PartialMetadata
  import opened FileSystem
  import opened SafeReplace
  import opened Validation
  import opened Provider
  import opened Transfer
  import opened Executor
  import opened ExecutorProperties

  ghost predicate SameOutput(f: Files, g: Files) {
    (Output in f <==> Output in g) && (Output in f ==> f[Output] == g[Output])
  }

  /**
   The size this attempt's headers promise, in unbounded arithmetic: that of HEAD when no GET was sent, and
   otherwise that of the answer to the GET.
   */
  ghost predicate Announced(env: Env, request: Option<Request>, size: nat) {
    var fetched := FetchMetadata(env.head);
    && fetched.Metadata?
    && match request
       case None => fetched.remote.length == Some(size)
       case Some(q) =>
         && env.exchange.response.status < 400
         && UnboundedTotal(Returned(env.exchange), fetched.remote.length, q.start) == Some(size)
  }

  ghost predicate CheckedPart(f: Files, env: Env, request: Option<Request>) {
    Part in f && IsValidFile(f, Part, None) && Announced(env, request, |f[Part]|)
  }

  /** An output that was there before, or the ".part" of an earlier state, checked for announced size and signature. */
  ghost predicate OutputAccounted(t: Trail, from: nat, i: nat, env: Env, request: Option<Request>)
    requires 0 < from <= i < |t|
  {
    Output in t[i] ==>
      || (Output in t[from - 1] && t[i][Output] == t[from - 1][Output])
      || exists j :: from - 1 <= j < i && CheckedPart(t[j], env, request) && t[i][Output] == t[j][Part]
  }

  /** The obligations of server-independent acceptance, for the part of a run that attempt a adds to trail t. */
  ghost predicate AcceptsOnlyChecked(t: Trail, a: Attempt, env: Env) {
    && t <= a.trail
    && (forall i | |t| <= i < |a.trail| :: OutputAccounted(a.trail, |t|, i, env, a.request))
    && (!a.verdict.Downloaded? && !RollbackFails(env.replaceFault) ==> SameOutput(Now(a.trail), Now(t)))
    && (a.verdict.Downloaded? ==>
          && Output in Now(a.trail)
          && exists j :: |t| - 1 <= j < |a.trail| && CheckedPart(a.trail[j], env, a.request)
                         && Now(a.trail)[Output] == a.trail[j][Part])
  }

  lemma QuietKeepsOutput(f: Files, base: Files)
    requires Quiet(f, base)
    ensures SameOutput(f, base)
  {
    assert Output in f - {Part, Meta} <==> Output in base - {Part, Meta};
  }

  lemma QuietAttemptAccepts(t: Trail, a: Attempt, env: Env)
    requires QuietlyContinues(t, a.trail) && !a.verdict.Downloaded?
    ensures AcceptsOnlyChecked(t, a, env)
  {
    forall i | |t| <= i < |a.trail|
      ensures OutputAccounted(a.trail, |t|, i, env, a.request)
    {
      QuietKeepsOutput(a.trail[i], Now(t));
    }
    QuietKeepsOutput(Now(a.trail), Now(t));
  }

  lemma ReplacementOutputs(u: Trail, fault: Fault)
    ensures var r := Replaced(u, fault);
            && u <= r.0
            && (forall i | |u| <= i < |r.0| :: Output in r.0[i] ==>
                  || (Output in Now(u) && r.0[i][Output] == Now(u)[Output])
                  || (Part in Now(u) && r.0[i][Output] == Now(u)[Part]))
            && (r.1 && !RollbackFails(fault) ==> SameOutput(Now(r.0), Now(u)))
            && (!r.1 ==> Part in Now(u) && Output in Now(r.0) && Now(r.0)[Output] == Now(u)[Part])
  {
  }

  /** Finishing from a quiet continuation u of t whose ".part" has been checked. */
  lemma FinishingAccepts(t: Trail, u: Trail, env: Env, bytes: nat, resumed: bool, request: Option<Request>)
    requires QuietlyContinues(t, u) && CheckedPart(Now(u), env, request)
    ensures AcceptsOnlyChecked(t, Finished(u, env, bytes, resumed, request), env)
  {
    hide IsValidFile, FetchMetadata, ExpectedTotal;
    var a := Finished(u, env, bytes, resumed, request);
    var r := Replaced(u, env.replaceFault);
    ReplacementOutputs(u, env.replaceFault);
    RemovalIsQuiet(r.0, env.last);
    QuietKeepsOutput(Now(u), Now(t));
    if !r.1 {
      QuietKeepsOutput(Now(a.trail), Now(r.0));
    }
    forall i | |t| <= i < |a.trail|
      ensures OutputAccounted(a.trail, |t|, i, env, a.request)
    {
      if i < |u| {
        QuietKeepsOutput(a.trail[i], Now(t));
      } else {
        assert a.trail[|u| - 1] == Now(u);
        if i >= |r.0| {
          QuietKeepsOutput(a.trail[i], Now(r.0));
          assert Now(r.0) == r.0[|r.0| - 1];
        }
      }
    }
    if a.verdict.Downloaded? {
      assert a.trail[|u| - 1] == Now(u);
    }
  }

  /** A stream that accepts leaves a ".part" of the announced size; the branch that accepts a 416 is dead. */
  lemma AcceptedPartIsChecked(t: Trail, remote: Remote, p: Plan, env: Env)
    requires FetchMetadata(env.head) == Metadata(remote)
    requires p.Resume? ==>
               && Part in Now(t) && |Now(t)[Part]| == p.start
               && (remote.length.Some? ==> p.start < remote.length.value)
    ensures var s := Stream(t, remote, JobFor(p, remote), env.exchange);
            s.outcome.Accepted? ==> CheckedPart(Now(s.trail), env, Some(RequestFor(p)))
  {
    hide Perform, Closed, CheckResumedRange, ExpectedTotal, UnboundedTotal, SizeWraps, FetchMetadata, HasSignature;
    var job, ex := JobFor(p, remote), env.exchange;
    TransferOutcome(t, job, ex);
    if ex.response.status < 400 {
      StreamSizeIsExact(t, remote, p, ex);
      ExpectedSizeIsExactIff(Returned(ex), remote.length, job.start);
    }
  }

  lemma TransferAccepts(cfg: Config, t: Trail, remote: Remote, p: Plan, env: Env)
    requires FetchMetadata(env.head) == Metadata(remote)
    requires p.Resume? ==>
               && Part in Now(t) && |Now(t)[Part]| == p.start
               && (remote.length.Some? ==> p.start < remote.length.value)
    ensures AcceptsOnlyChecked(t, Transferred(cfg, t, remote, p, env), env)
  {
    hide MetadataWritten, Stream, Finished, FetchMetadata, CheckedPart, AcceptsOnlyChecked;
    var writes := cfg.resume && HasIdentity(remote);
    var w := if writes then MetadataWritten(t, remote, env.metaFault) else (t, false);
    MetadataWriteIsQuiet(t, remote, env.metaFault);
    if w.1 {
      QuietAttemptAccepts(t, Transferred(cfg, t, remote, p, env), env);
    } else {
      var s := Stream(w.0, remote, JobFor(p, remote), env.exchange);
      StreamIsQuiet(w.0, remote, JobFor(p, remote), env.exchange);
      AcceptedPartIsChecked(w.0, remote, p, env);
      QuietTransitive(t, w.0, s.trail);
      match s.outcome
      case Rejected(_) =>
        QuietAttemptAccepts(t, Transferred(cfg, t, remote, p, env), env);
      case Accepted(bytes, resumed) =>
        FinishingAccepts(t, s.trail, env, bytes, resumed, Some(RequestFor(p)));
    }
  }

  /** Planning is quiet and leaves a resumed ".part" as it was. */
  lemma PlanningIsQuiet(t: Trail, p: Plan, kept: Kept)
    ensures QuietlyContinues(t, Planned(t, p, kept))
    ensures p != Fresh(true) ==> Planned(t, p, kept) == t
  {
    RemovalIsQuiet(t, kept);
  }

  /** A quiet prefix can be put in front. */
  lemma AcceptsAfterQuiet(t: Trail, u: Trail, a: Attempt, env: Env)
    requires QuietlyContinues(t, u) && AcceptsOnlyChecked(u, a, env)
    ensures AcceptsOnlyChecked(t, a, env)
  {
    hide CheckedPart;
    QuietKeepsOutput(Now(u), Now(t));
    forall i | |t| <= i < |a.trail|
      ensures OutputAccounted(a.trail, |t|, i, env, a.request)
    {
      if i < |u| {
        QuietKeepsOutput(a.trail[i], Now(t));
      } else {
        assert OutputAccounted(a.trail, |u|, i, env, a.request);
        assert a.trail[|u| - 1] == Now(u) && a.trail[|t| - 1] == Now(t);
      }
    }
  }

  lemma TryAccepts(cfg: Config, t: Trail, env: Env)
    ensures AcceptsOnlyChecked(t, Tried(cfg, t, env), env)
  {
    hide Transferred, Finished, Planned, AcceptsOnlyChecked, QuietlyContinues, FetchMetadata, Decide;
    var a := Tried(cfg, t, env);
    match FetchMetadata(env.head)
    case HeadRejected(_) =>
      UnchangedIsQuiet(t);
      QuietAttemptAccepts(t, a, env);
    case Metadata(remote) =>
      if SkipsExisting(cfg, Now(t), remote) {
        RemovalIsQuiet(t, env.first);
        QuietAttemptAccepts(t, a, env);
      } else {
        var p := Decide(cfg.resume, Now(t), remote);
        PlanFacts(cfg.resume, Now(t), remote);
        if p.Promote? {
          UnchangedIsQuiet(t);
          PromotedPartIsChecked(t, remote, env);
          FinishingAccepts(t, t, env, 0, true, None);
        } else {
          PlanningIsQuiet(t, p, env.first);
          TransferAccepts(cfg, Planned(t, p, env.first), remote, p, env);
          AcceptsAfterQuiet(t, Planned(t, p, env.first), a, env);
        }
      }
  }

  lemma PromotedPartIsChecked(t: Trail, remote: Remote, env: Env)
    requires FetchMetadata(env.head) == Metadata(remote)
    requires remote.length.Some? && IsValidFile(Now(t), Part, remote.length)
    ensures CheckedPart(Now(t), env, None)
  {
    hide FetchMetadata, HasSignature, ExpectedTotal;
  }

  lemma UnchangedIsQuiet(t: Trail)
    ensures QuietlyContinues(t, t)
  {
  }

  lemma PlanFacts(resume: bool, f: Files, remote: Remote)
    ensures var p := Decide(resume, f, remote);
            && (p.Promote? ==> remote.length.Some? && IsValidFile(f, Part, remote.length))
            && (p.Resume? ==>
                  && Part in f && |f[Part]| == p.start
                  && (remote.length.Some? ==> p.start < remote.length.value))
  {
    hide Load, Matches, HasIdentity, IsValidFile;
  }

  /** Server-independent acceptance of one attempt, clean-up included. */
  lemma AttemptAcceptsOnlyChecked(cfg: Config, t: Trail, env: Env)
    ensures AcceptsOnlyChecked(t, Attempted(cfg, t, env), env)
  {
    hide Tried, CheckedPart, QuietlyContinues;
    var a, b := Tried(cfg, t, env), Attempted(cfg, t, env);
    TryAccepts(cfg, t, env);
    if a.trail != b.trail {
      RemovalKeepsOutput(a.trail, env.last);
      forall i | |t| <= i < |b.trail|
        ensures OutputAccounted(b.trail, |t|, i, env, b.request)
      {
        if i < |a.trail| {
          assert OutputAccounted(a.trail, |t|, i, env, a.request);
        } else {
          assert |a.trail| > |t| ==> OutputAccounted(a.trail, |t|, |a.trail| - 1, env, a.request);
        }
      }
    }
  }

  lemma RemovalKeepsOutput(t: Trail, kept: Kept)
    ensures t <= PartialRemoved(t, kept)
    ensures forall i | |t| <= i < |PartialRemoved(t, kept)| :: SameOutput(PartialRemoved(t, kept)[i], Now(t))
    ensures SameOutput(Now(PartialRemoved(t, kept)), Now(t))
  {
  }

  /** A size or payload failure leaves no partial state to build on, except what its removal leaves in silence. */
  lemma ValidationFailureRemovesPartial(cfg: Config, t: Trail, env: Env)
    ensures var a := Attempted(cfg, t, env);
            a.verdict.Failed? && (a.verdict.error.IntegrityError? || a.verdict.error.PayloadError?) ==>
              && (Part in Now(a.trail) <==> env.last.part && Part in Now(Tried(cfg, t, env).trail))
              && (Meta in Now(a.trail) <==> env.last.meta && Meta in Now(Tried(cfg, t, env).trail))
  {
    hide Tried;
    RemovalIsQuiet(Tried(cfg, t, env).trail, env.last);
  }

  /** An attempt skips exactly when the output has the size HEAD reports and a signature, and may stay. */
  lemma SkipsIff(cfg: Config, t: Trail, env: Env)
    ensures Attempted(cfg, t, env).verdict.Skipped? <==>
            && !cfg.overwrite
            && FetchMetadata(env.head).Metadata?
            && Output in Now(t)
            && FetchMetadata(env.head).remote.length == Some(|Now(t)[Output]|)
            && |Now(t)[Output]| >= 4 && HasSignature(Now(t)[Output])
  {
    hide FetchMetadata, Decide, Planned, Replaced, MetadataWritten, Stream, HasSignature;
  }

  // ----- whole runs

  /** Each attempt that the run makes, from where it really starts, accepts only what it has checked. */
  ghost predicate EveryAttemptAccepts(cfg: Config, t: Trail, envs: seq<Env>, attempt: nat)
    requires 1 <= attempt <= TotalAttempts(cfg) <= |envs|
    decreases TotalAttempts(cfg) - attempt
  {
    var a := Attempted(cfg, t, envs[attempt - 1]);
    && AcceptsOnlyChecked(t, a, envs[attempt - 1])
    && (Retries(cfg, a, attempt) ==> EveryAttemptAccepts(cfg, a.trail, envs, attempt + 1))
  }

  /** One of these attempts has checked this ".part" against the headers that it met itself. */
  ghost predicate CheckedInRun(cfg: Config, t: Trail, envs: seq<Env>, attempt: nat, f: Files)
    requires 1 <= attempt <= TotalAttempts(cfg) <= |envs|
    decreases TotalAttempts(cfg) - attempt
  {
    && Part in f
    && var a := Attempted(cfg, t, envs[attempt - 1]);
       || CheckedPart(f, envs[attempt - 1], a.request)
       || (Retries(cfg, a, attempt) && CheckedInRun(cfg, a.trail, envs, attempt + 1, f))
  }

  ghost predicate AccountedInRun(cfg: Config, t: Trail, envs: seq<Env>, attempt: nat, whole: Trail, i: nat)
    requires 1 <= attempt <= TotalAttempts(cfg) <= |envs|
    requires |t| <= i < |whole|
  {
    Output in whole[i] ==>
      || (Output in whole[|t| - 1] && whole[i][Output] == whole[|t| - 1][Output])
      || exists j :: |t| - 1 <= j < i && CheckedInRun(cfg, t, envs, attempt, whole[j])
                     && whole[i][Output] == whole[j][Part]
  }

  /** Attempts attempt, attempt + 1, ... of the run, as many as it made. */
  ghost predicate NoRollbackFails(envs: seq<Env>, attempt: nat, retries: nat) {
    forall k | 0 <= k < |envs| && attempt - 1 <= k <= attempt - 1 + retries :: !RollbackFails(envs[k].replaceFault)
  }

  ghost predicate RunAccepts(cfg: Config, t: Trail, envs: seq<Env>, attempt: nat, r: Run)
    requires 1 <= attempt <= TotalAttempts(cfg) <= |envs|
  {
    && t <= r.trail
    && (forall i | |t| <= i < |r.trail| :: AccountedInRun(cfg, t, envs, attempt, r.trail, i))
    && (!r.result.status.DownloadedStatus? && NoRollbackFails(envs, attempt, |r.waits|) ==>
          SameOutput(Now(r.trail), Now(t)))
    && (r.result.status.DownloadedStatus? ==>
          && Output in Now(r.trail)
          && exists j :: |t| - 1 <= j < |r.trail| && CheckedInRun(cfg, t, envs, attempt, r.trail[j])
                         && Now(r.trail)[Output] == r.trail[j][Part])
  }

  lemma CheckedByAttempt(cfg: Config, t: Trail, envs: seq<Env>, attempt: nat, f: Files)
    requires 1 <= attempt <= TotalAttempts(cfg) <= |envs|
    requires CheckedPart(f, envs[attempt - 1], Attempted(cfg, t, envs[attempt - 1]).request)
    ensures CheckedInRun(cfg, t, envs, attempt, f)
  {
    hide IsValidFile, Announced, Attempted, IsRetryable;
  }

  lemma CheckedByLaterAttempt(cfg: Config, t: Trail, envs: seq<Env>, attempt: nat, f: Files)
    requires 1 <= attempt < TotalAttempts(cfg) <= |envs|
    requires var a := Attempted(cfg, t, envs[attempt - 1]);
             Retries(cfg, a, attempt) && CheckedInRun(cfg, a.trail, envs, attempt + 1, f)
    ensures CheckedInRun(cfg, t, envs, attempt, f)
  {
    hide IsValidFile, Announced, Attempted, IsRetryable;
  }

  lemma AttemptAcceptsInRun(cfg: Config, t: Trail, envs: seq<Env>, attempt: nat)
    requires 1 <= attempt <= TotalAttempts(cfg) <= |envs|
    requires var a := Attempted(cfg, t, envs[attempt - 1]);
             AcceptsOnlyChecked(t, a, envs[attempt - 1]) && !Retries(cfg, a, attempt)
    ensures RunAccepts(cfg, t, envs, attempt, RunFrom(cfg, t, envs, attempt))
  {
    hide CheckedPart, Attempted, IsRetryable, WaitAfter, RollbackFails, CheckedInRun;
    var a, r := Attempted(cfg, t, envs[attempt - 1]), RunFrom(cfg, t, envs, attempt);
    forall f: Files | CheckedPart(f, envs[attempt - 1], a.request)
      ensures CheckedInRun(cfg, t, envs, attempt, f)
    {
      CheckedByAttempt(cfg, t, envs, attempt, f);
    }
    forall i | |t| <= i < |r.trail|
      ensures AccountedInRun(cfg, t, envs, attempt, r.trail, i)
    {
      assert OutputAccounted(a.trail, |t|, i, envs[attempt - 1], a.request);
    }
  }

  lemma RunAcceptsJoins(cfg: Config, t: Trail, envs: seq<Env>, attempt: nat, rest: Run, r: Run)
    requires 1 <= attempt < TotalAttempts(cfg) <= |envs|
    requires var a := Attempted(cfg, t, envs[attempt - 1]);
             && AcceptsOnlyChecked(t, a, envs[attempt - 1]) && Retries(cfg, a, attempt)
             && RunAccepts(cfg, a.trail, envs, attempt + 1, rest)
    requires r.trail == rest.trail && r.result == rest.result && |r.waits| == |rest.waits| + 1
    ensures RunAccepts(cfg, t, envs, attempt, r)
  {
    hide CheckedPart, RollbackFails, Attempted, IsRetryable, CheckedInRun;
    var a, env := Attempted(cfg, t, envs[attempt - 1]), envs[attempt - 1];
    forall f: Files | CheckedPart(f, env, a.request)
      ensures CheckedInRun(cfg, t, envs, attempt, f)
    {
      CheckedByAttempt(cfg, t, envs, attempt, f);
    }
    forall f: Files | CheckedInRun(cfg, a.trail, envs, attempt + 1, f)
      ensures CheckedInRun(cfg, t, envs, attempt, f)
    {
      CheckedByLaterAttempt(cfg, t, envs, attempt, f);
    }
    forall i | |t| <= i < |r.trail|
      ensures AccountedInRun(cfg, t, envs, attempt, r.trail, i)
    {
      if i < |a.trail| {
        assert OutputAccounted(a.trail, |t|, i, env, a.request);
        assert a.trail[i] == r.trail[i];
      } else {
        assert AccountedInRun(cfg, a.trail, envs, attempt + 1, rest.trail, i);
        var last := |a.trail| - 1;
        if last >= |t| {
          assert OutputAccounted(a.trail, |t|, last, env, a.request);
          assert a.trail[last] == r.trail[last];
        }
      }
    }
    if NoRollbackFails(envs, attempt, |r.waits|) {
      assert !RollbackFails(envs[attempt - 1].replaceFault);
      assert NoRollbackFails(envs, attempt + 1, |rest.waits|);
    }
  }

  lemma {:induction false} RunFromAccepts(cfg: Config, t: Trail, envs: seq<Env>, attempt: nat)
    requires 1 <= attempt <= TotalAttempts(cfg) <= |envs|
    ensures EveryAttemptAccepts(cfg, t, envs, attempt)
    ensures RunAccepts(cfg, t, envs, attempt, RunFrom(cfg, t, envs, attempt))
    decreases TotalAttempts(cfg) - attempt
  {
    hide Attempted, AcceptsOnlyChecked, RunAccepts, IsRetryable, WaitAfter;
    var a := Attempted(cfg, t, envs[attempt - 1]);
    AttemptAcceptsOnlyChecked(cfg, t, envs[attempt - 1]);
    if Retries(cfg, a, attempt) {
      var rest := RunFrom(cfg, a.trail, envs, attempt + 1);
      RunFromAccepts(cfg, a.trail, envs, attempt + 1);
      RunAcceptsJoins(cfg, t, envs, attempt, rest, RunFrom(cfg, t, envs, attempt));
    } else {
      AttemptAcceptsInRun(cfg, t, envs, attempt);
    }
  }

  /**
   Over a whole run, crash points included: every output is the one found at the start or a ".part" of an earlier
   state that one of the attempts made has checked; a run that does not download leaves the output's bytes alone.
   */
  lemma RunAcceptsOnlyChecked(cfg: Config, lockBusy: bool, f: Files, envs: seq<Env>)
    requires TotalAttempts(cfg) <= |envs|
    ensures var r := RunTarget(cfg, lockBusy, f, envs);
            if lockBusy then r.trail == [f] && r.result == LOCKED
            else EveryAttemptAccepts(cfg, [f], envs, 1) && RunAccepts(cfg, [f], envs, 1, r)
  {
    hide RunFrom, RunAccepts, EveryAttemptAccepts;
    if !lockBusy {
      RunFromAccepts(cfg, [f], envs, 1);
    }
  }
}
