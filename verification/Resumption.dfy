/**
 Progress is kept: a download cut by the network goes on where it stopped, under the validator it was
 recorded with, in the same run or in a later one.
 */
module Resumption {
  import opened Wrappers
  import opened Http
  import opened ContentRange
  import opened PartialMetadata
  import opened FileSystem
  import opened Validation
  import opened Provider
  import opened Transfer
  import opened TransferProperties
  import opened Executor
  import opened ExecutorProperties
  import opened Acceptance
  import opened ResumeProperties

  /** A file whose identity a record can hold, and whose server does not refuse ranges. */
  ghost predicate Resumable(remote: Remote) {
    && HasIdentity(remote) && IsCleanValidator(remote.etag) && IsCleanValidator(remote.lastModified)
    && remote.acceptsRanges != Some(false)
  }

  /** A transfer that works locally but ends early: curl reports an error after some of the body. */
  ghost predicate Cut(p: Plan, remote: Remote, env: Env) {
    var ex := env.exchange;
    && FetchMetadata(env.head) == Metadata(remote)
    && env.metaFault.MetaWritten? && ex.flushLoss.None? && ex.code != CURLE_OK
    && StartWorks(JobFor(p, remote), ex) && WritesWork(ex.chunks)
  }

  /** The bytes on disk after the cut: those that were resumed, if the server resumed, and those that came. */
  function Saved(p: Plan, remote: Remote, f: Files, ex: Exchange): Bytes
    requires p.Resume? ==> Part in f
  {
    (if Appends(JobFor(p, remote), ex.response) then f[Part] else "") + Body(ex.chunks)
  }

  lemma CutTransfer(t: Trail, p: Plan, remote: Remote, env: Env)
    requires Cut(p, remote, env)
    requires p.Resume? ==> Part in Now(t) && |Now(t)[Part]| == p.start
    ensures var s := Stream(t, remote, JobFor(p, remote), env.exchange);
            && s.outcome == Rejected(NetworkError(env.exchange.code))
            && SameBesidesPart(Now(s.trail), Now(t))
            && Part in Now(s.trail) && Now(s.trail)[Part] == Saved(p, remote, Now(t), env.exchange)
  {
    hide Perform, CheckResumedRange, Body, FetchMetadata;
    var job, ex := JobFor(p, remote), env.exchange;
    PerformWorksIff(t, job, ex);
    TransferOutcome(t, job, ex);
    assert FullyWritten(t, Perform(t, job, ex), job, ex);
  }

  /** With a full record and a ".part" short of the remote size, the next plan resumes at its end. */
  lemma PlanResumes(f: Files, remote: Remote)
    requires Resumable(remote)
    requires Meta in f && f[Meta] == MetadataText(remote)
    requires Part in f && f[Part] != "" && (remote.length.Some? ==> |f[Part]| < remote.length.value)
    ensures Decide(true, f, remote) == Resume(|f[Part]|, ChooseIfRange(remote))
  {
    hide Load, MetadataText, IsValidFile, ChooseIfRange, Matches, HasIdentity;
    MetadataRoundTrip(remote);
    RecordedMatchesItself(remote);
  }

  /** What a streaming attempt comes to once its record is written. */
  lemma StreamingAttempt(cfg: Config, t: Trail, env: Env, p: Plan)
    requires Streams(cfg, t, env, p) && env.metaFault.MetaWritten?
    requires cfg.resume && HasIdentity(FetchMetadata(env.head).remote)
    ensures var remote := FetchMetadata(env.head).remote;
            var u := MetadataWritten(Planned(t, p, env.first), remote, env.metaFault).0;
            var s := Stream(u, remote, JobFor(p, remote), env.exchange);
            && (if s.outcome.Rejected?
                then Tried(cfg, t, env) == Attempt(s.trail, Failed(s.outcome.error), Some(RequestFor(p)))
                else Tried(cfg, t, env) ==
                     Finished(s.trail, env, s.outcome.bytes, s.outcome.resumed, Some(RequestFor(p))))
            && Attempted(cfg, t, env).request == Some(RequestFor(p))
  {
    hide FetchMetadata, Stream, MetadataText, Appended, SkipsExisting, Decide, SafeReplace.Replaced, Planned;
  }

  /** The disk of a download that waits to go on: some bytes, the full record they belong to, no output in the way. */
  ghost predicate Waiting(cfg: Config, f: Files, remote: Remote, part: Bytes) {
    && Part in f && f[Part] == part
    && Meta in f && f[Meta] == MetadataText(remote)
    && !SkipsExisting(cfg, f, remote)
  }

  /** A cut attempt fails with the network error and leaves ".part" as the resumed bytes followed by those that came. */
  lemma CutAttemptWaits(cfg: Config, t: Trail, remote: Remote, env: Env, p: Plan)
    requires cfg.resume && HasIdentity(remote) && Streams(cfg, t, env, p) && Cut(p, remote, env)
    ensures p.Resume? ==> Part in Now(t)
    ensures var a := Attempted(cfg, t, env);
            && a.verdict == Failed(NetworkError(env.exchange.code)) && a.request == Some(RequestFor(p))
            && Waiting(cfg, Now(a.trail), remote, Saved(p, remote, Now(t), env.exchange))
  {
    hide Stream, FetchMetadata, MetadataWritten, MetadataText, Tried, HasIdentity, SkipsExisting, StartWorks, Body;
    var t1 := Planned(t, p, env.first);
    var u := MetadataWritten(t1, remote, env.metaFault).0;
    StreamingAttempt(cfg, t, env, p);
    RecordIsRewritten(t1, remote, env.metaFault);
    PlanningIsQuiet(t, p, env.first);
    PlanFacts(cfg.resume, Now(t), remote);
    CutTransfer(u, p, remote, env);
    var a := Attempted(cfg, t, env);
    RecordIsKept(Now(a.trail), Now(u));
    StillStreams(cfg, t, u, a.trail, remote);
  }

  /**
   A cut attempt keeps every byte it has: it fails with the network error, and ".part" holds the resumed bytes
   followed by those that came. The next attempt with the same metadata asks for exactly the rest.
   */
  lemma CutAttemptIsResumed(cfg: Config, t: Trail, remote: Remote, env: Env, next: Env, p: Plan)
    requires cfg.resume && Resumable(remote) && Streams(cfg, t, env, p) && Cut(p, remote, env)
    requires var saved := |Saved(p, remote, Now(t), env.exchange)|;
             0 < saved && (remote.length.Some? ==> saved < remote.length.value)
    requires FetchMetadata(next.head) == Metadata(remote) && next.metaFault.MetaWritten?
    ensures var a := Attempted(cfg, t, env);
            && a.verdict == Failed(NetworkError(env.exchange.code)) && a.request == Some(RequestFor(p))
            && Part in Now(a.trail) && Now(a.trail)[Part] == Saved(p, remote, Now(t), env.exchange)
            && Attempted(cfg, a.trail, next).request ==
               Some(Request(|Saved(p, remote, Now(t), env.exchange)|, ChooseIfRange(remote)))
  {
    hide Attempted, FetchMetadata, MetadataText, HasIdentity, ChooseIfRange, SkipsExisting, Cut, Saved;
    CutAttemptWaits(cfg, t, remote, env, p);
    var a := Attempted(cfg, t, env);
    PlanResumes(Now(a.trail), remote);
    StreamingAttempt(cfg, a.trail, next, Decide(true, Now(a.trail), remote));
  }

  /**
   Exactly when a cut resume still has the old bytes: the server has resumed, or it has sent them again from the
   start before the cut. When no answer arrives at all, the status is 0 and ".part" is started over.
   */
  lemma CutKeepsBytesIff(cfg: Config, t: Trail, remote: Remote, env: Env, p: Plan)
    requires cfg.resume && HasIdentity(remote) && Streams(cfg, t, env, p) && Cut(p, remote, env) && p.Resume?
    ensures Part in Now(t) && Part in Now(Attempted(cfg, t, env).trail)
    ensures Now(t)[Part] <= Now(Attempted(cfg, t, env).trail)[Part] <==>
            env.exchange.response.status == 206 || Now(t)[Part] <= Body(env.exchange.chunks)
  {
    hide Attempted, FetchMetadata, MetadataText, HasIdentity, SkipsExisting, StartWorks, WritesWork, Streams;
    CutAttemptWaits(cfg, t, remote, env, p);
    assert "" + Body(env.exchange.chunks) == Body(env.exchange.chunks);
  }

  /** An attempt to resume that reaches no server loses what there was: the next plan starts over. */
  lemma UnansweredResumeStartsOver(cfg: Config, t: Trail, remote: Remote, env: Env, p: Plan)
    requires cfg.resume && HasIdentity(remote) && Streams(cfg, t, env, p) && Cut(p, remote, env) && p.Resume?
    requires env.exchange.response.status == 0 && Body(env.exchange.chunks) == ""
    ensures var a := Attempted(cfg, t, env);
            && a.verdict == Failed(NetworkError(env.exchange.code))
            && Part in Now(a.trail) && Now(a.trail)[Part] == ""
            && Decide(cfg.resume, Now(a.trail), remote) == Fresh(true)
  {
    hide Attempted, FetchMetadata, MetadataText, HasIdentity, SkipsExisting, StartWorks, WritesWork, Streams, Body;
    CutAttemptWaits(cfg, t, remote, env, p);
  }

  lemma RecordIsKept(f: Files, g: Files)
    requires SameBesidesPart(f, g) && Meta in g
    ensures Meta in f && f[Meta] == g[Meta]
  {
    assert Meta in g - {Part} && Meta in f - {Part};
  }

  /** An output that did not stop the first attempt does not stop the second. */
  lemma StillStreams(cfg: Config, t: Trail, u: Trail, later: Trail, remote: Remote)
    requires !SkipsExisting(cfg, Now(t), remote)
    requires Now(u) - {Part, Meta} == Now(t) - {Part, Meta} && SameBesidesPart(Now(later), Now(u))
    ensures !SkipsExisting(cfg, Now(later), remote)
  {
    hide HasSignature;
    var f, g, h := Now(t), Now(u), Now(later);
    assert Output in f <==> Output in f - {Part, Meta};
    assert Output in g <==> Output in g - {Part, Meta};
    assert Output in g <==> Output in g - {Part};
    assert Output in h <==> Output in h - {Part};
  }

  /** In one run: after a cut that curl's code makes retryable, the second request asks for the rest. */
  lemma CutRunContinues(cfg: Config, f: Files, remote: Remote, envs: seq<Env>, p: Plan)
    requires cfg.resume && 2 <= TotalAttempts(cfg) <= |envs|
    requires Resumable(remote) && Streams(cfg, [f], envs[0], p) && Cut(p, remote, envs[0])
    requires IsRetryableCode(envs[0].exchange.code)
    requires var saved := |Saved(p, remote, f, envs[0].exchange)|;
             0 < saved && (remote.length.Some? ==> saved < remote.length.value)
    requires FetchMetadata(envs[1].head) == Metadata(remote) && envs[1].metaFault.MetaWritten?
    ensures [RequestFor(p), Request(|Saved(p, remote, f, envs[0].exchange)|, ChooseIfRange(remote))]
            <= RunTarget(cfg, false, f, envs).requests
  {
    hide Attempted, FetchMetadata, ChooseIfRange, Resumable, Cut, Streams, Saved, WaitAfter;
    CutAttemptIsResumed(cfg, [f], remote, envs[0], envs[1], p);
    var a := Attempted(cfg, [f], envs[0]);
    var b := Attempted(cfg, a.trail, envs[1]);
    assert Retries(cfg, a, 1);
    var rest := RunFrom(cfg, a.trail, envs, 2);
    assert Sent(b) <= rest.requests;
    assert RunFrom(cfg, [f], envs, 1).requests == Sent(a) + rest.requests;
  }
}
