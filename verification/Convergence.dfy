/**
 Crash recovery converges: after any history, one undisturbed run against a server that no longer changes
 finishes on its first attempt with the server's bytes, or with a valid output that was already there.
 */
module Convergence {
  import opened Wrappers
  import opened Text
  import opened Http
  import opened ContentRange
  import opened PartialMetadata
  import opened FileSystem
  import opened SafeReplace
  import opened Validation
  import opened Provider
  import opened Transfer
  import opened TransferProperties
  import opened Executor
  import opened ExecutorProperties
  import opened ResumeProperties
  import opened Server
  import opened Integrity
  import opened History

  /** The headers of the rest of the version from `start`, as sections 14.2 and 14.4 of RFC 9110 print them. */
  ghost predicate AnnouncesRest(v: Version, start: nat, ex: Exchange) {
    && 0 < start < |v.content|
    && ex.response.status == 206
    && Header(ex.response.headers, "content-range") == Some(PrintRange(start, |v.content| - 1, |v.content|))
    && ("content-length" in ex.response.headers ==>
          ex.response.headers["content-length"] == Decimal(|v.content| - start))
  }

  ghost predicate AnnouncesWhole(v: Version, ex: Exchange) {
    && ex.response.status == 200
    && "content-range" !in ex.response.headers
    && Header(ex.response.headers, "content-length") == Some(Decimal(|v.content|))
  }

  ghost predicate ServesRest(v: Version, start: nat, ex: Exchange) {
    AnnouncesRest(v, start, ex) && Body(ex.chunks) == v.content[start..]
  }

  ghost predicate ServesWhole(v: Version, ex: Exchange) {
    AnnouncesWhole(v, ex) && Body(ex.chunks) == v.content
  }

  /** Nothing fails locally, HEAD reports size and identity, and the GET is answered in full; Range may be ignored. */
  ghost predicate Undisturbed(v: Version, request: Request, env: Env) {
    var fetched, ex := FetchMetadata(env.head), env.exchange;
    && fetched.Metadata?
    && fetched.remote.length.Some? && Describes(fetched.remote, v) && HasIdentity(fetched.remote)
    && env.metaFault.MetaWritten? && env.replaceFault == NO_FAULT
    && env.first == NOTHING_KEPT && env.last == NOTHING_KEPT
    && ex.code == CURLE_OK && !ex.start.openFails && ex.flushLoss.None? && WritesWork(ex.chunks)
    && DescribedByHeaders(ex)
    && (ServesWhole(v, ex) || ServesRest(v, request.start, ex))
  }

  // ----- the answers of an undisturbed server are accepted

  lemma RestIsAccepted(v: Version, remoteLength: Option<uint64>, start: nat, ex: Exchange)
    requires AnnouncesRest(v, start, ex) && DescribedByHeaders(ex) && remoteLength == Some(|v.content|)
    ensures CheckResumedRange(StartResponse(ex), remoteLength, start).Valid?
    ensures ExpectedTotal(Returned(ex), remoteLength, start) == Some(|v.content|)
  {
    hide ParseContentRange, CheckResumedRange, ExpectedTotal, ParseUint, PrintRange, Decimal;
    TrailersDoNotMatter(ex, remoteLength, start);
    var size: uint64 := |v.content|;
    var range := Range(start, size - 1, size);
    PrintedRangeParses(start, size - 1, size);
    ParsePrintedUint(size - start);
    ValidIffSafeAnswer(ex.response, remoteLength, start, range);
    ExpectedTotalOfValidRange(ex.response, remoteLength, start, range);
  }

  lemma WholeSize(v: Version, remoteLength: Option<uint64>, start: nat, ex: Exchange)
    requires AnnouncesWhole(v, ex) && DescribedByHeaders(ex) && remoteLength == Some(|v.content|)
    ensures ExpectedTotal(Returned(ex), remoteLength, start) == Some(|v.content|)
  {
    hide ParseUint, Decimal, ParseContentRangeTotal;
    TrailersDoNotMatter(ex, remoteLength, start);
    ParsePrintedUint(|v.content|);
  }

  lemma UndisturbedStream(v: Version, t: Trail, remote: Remote, p: Plan, ex: Exchange)
    requires remote.length == Some(|v.content|) && |v.content| >= 4 && HasSignature(v.content)
    requires PlannedFor(Now(t), remote, p)
    requires p.Resume? ==> Now(t)[Part] <= v.content
    requires ex.code == CURLE_OK && !ex.start.openFails && ex.flushLoss.None? && WritesWork(ex.chunks)
    requires DescribedByHeaders(ex)
    requires ServesWhole(v, ex) || ServesRest(v, RequestFor(p).start, ex)
    ensures var s := Stream(t, remote, JobFor(p, remote), ex);
            s.outcome.Accepted? && Part in Now(s.trail) && Now(s.trail)[Part] == v.content
  {
    hide Stream, CheckResumedRange, ExpectedTotal, HasSignature, IsNonBlank, PrintRange, Decimal, WritesWork;
    var job := JobFor(p, remote);
    if ServesWhole(v, ex) {
      WholeSize(v, remote.length, job.start, ex);
      assert "" + v.content == v.content;
    } else {
      RestIsAccepted(v, remote.length, job.start, ex);
      assert Now(t)[Part] + v.content[job.start..] == v.content;
    }
    StreamAcceptsIff(t, remote, p, ex);
  }

  // ----- one attempt, and the run

  lemma FinishingWorks(u: Trail, env: Env, bytes: nat, resumed: bool, request: Option<Request>)
    requires Part in Now(u) && env.replaceFault == NO_FAULT && env.last == NOTHING_KEPT
    ensures var a := Finished(u, env, bytes, resumed, request);
            && a.verdict == Downloaded(bytes, resumed)
            && Output in Now(a.trail) && Now(a.trail)[Output] == Now(u)[Part]
            && Part !in Now(a.trail) && Meta !in Now(a.trail)
  {
  }

  ghost predicate Converged(v: Version, f: Files, a: Attempt) {
    var g := Now(a.trail);
    && Part !in g && Meta !in g && Output in g
    && ((a.verdict.Downloaded? && g[Output] == v.content) ||
        (a.verdict.Skipped? && Output in f && g[Output] == f[Output] && IsValidFile(g, Output, Some(|v.content|))))
  }

  /** The request the first attempt of a run makes, if it makes one. */
  function PlannedRequest(cfg: Config, f: Files, env: Env): Request {
    var fetched := FetchMetadata(env.head);
    if fetched.Metadata? then RequestFor(Decide(cfg.resume, f, fetched.remote)) else Request(0, None)
  }

  lemma TransferConverges(
    sv: Versions, v: nat, foreign: set<Bytes>, cfg: Config, t: Trail, remote: Remote, p: Plan, env: Env)
    requires v < |sv| && Describes(remote, sv[v]) && HasIdentity(remote) && remote.length.Some?
    requires |sv[v].content| >= 4 && HasSignature(sv[v].content)
    requires FetchMetadata(env.head) == Metadata(remote) && cfg.resume
    requires ReadyToStream(sv, v, foreign, Now(t), p) && PlannedFor(Now(t), remote, p)
    requires ReadyFor(sv, v, foreign, Now(t))
    requires Undisturbed(sv[v], RequestFor(p), env)
    ensures var a := Transferred(cfg, t, remote, p, env);
            && a.verdict.Downloaded? && Output in Now(a.trail) && Now(a.trail)[Output] == sv[v].content
            && Part !in Now(a.trail) && Meta !in Now(a.trail)
  {
    hide Stream, MetadataWritten, Finished, ServesWhole, ServesRest, FetchMetadata, HasIdentity, HasSignature, Sound,
      IsNonBlank, RecordUpTo;
    var w := MetadataWritten(t, remote, env.metaFault);
    RecordIsRewritten(t, remote, env.metaFault);
    MetadataWriteIsSound(sv, v, foreign, t, remote, env.metaFault);
    MetadataWriteIsQuiet(t, remote, env.metaFault);
    UndisturbedStream(sv[v], w.0, remote, p, env.exchange);
    var s := Stream(w.0, remote, JobFor(p, remote), env.exchange);
    FinishingWorks(s.trail, env, s.outcome.bytes, s.outcome.resumed, Some(RequestFor(p)));
  }

  lemma AttemptConverges(sv: Versions, cur: nat, v: nat, foreign: set<Bytes>, cfg: Config, t: Trail, env: Env)
    requires NeverReusesValidators(sv) && Sound(sv, cur, foreign, Now(t)) && cur <= v < |sv|
    requires |sv[v].content| >= 4 && HasSignature(sv[v].content)
    requires cfg.resume && Undisturbed(sv[v], PlannedRequest(cfg, Now(t), env), env)
    ensures Converged(sv[v], Now(t), Attempted(cfg, t, env))
  {
    hide Sound, NeverReusesValidators, Transferred, Finished, ServesWhole, ServesRest, HasSignature, FetchMetadata,
      Decide, Planned, PlannedFor, HasIdentity;
    var remote := FetchMetadata(env.head).remote;
    if SkipsExisting(cfg, Now(t), remote) {
      SkippedOutput(t, remote);
    } else {
      var p := Decide(cfg.resume, Now(t), remote);
      PlannedStates(sv, cur, v, foreign, cfg, t, remote, env);
      if p.Promote? {
        FinishingWorks(t, env, 0, true, None);
      } else {
        TransferConverges(sv, v, foreign, cfg, Planned(t, p, env.first), remote, p, env);
      }
    }
  }

  lemma SkippedOutput(t: Trail, remote: Remote)
    requires remote.length.Some? && Output in Now(t) && IsValidFile(Now(t), Output, remote.length)
    ensures var g := Now(PartialRemoved(t, NOTHING_KEPT));
            && Part !in g && Meta !in g && Output in g && g[Output] == Now(t)[Output]
            && IsValidFile(g, Output, remote.length)
  {
    hide HasSignature;
  }

  /**
   From whatever disk a history leaves, with the lock free: one undisturbed run with resume on, against a server
   that stays at version v, ends on attempt 1. It has downloaded exactly the server's bytes, or skipped an
   output of the right size and signature, and the partial state is gone.
   */
  lemma RecoveryConverges(
    sv: Versions, foreign: Files, es: seq<Event>, v: nat, cfg: Config, envs: seq<Env>)
    requires NeverReusesValidators(sv) && Clean(foreign) && CompliantHistory(sv, 0, foreign, es)
    requires VersionReached(0, es) <= v < |sv|
    requires |sv[v].content| >= 4 && HasSignature(sv[v].content)
    requires cfg.resume && TotalAttempts(cfg) <= |envs|
    requires forall i | 0 <= i < |es| :: WellFormed(es[i])
    requires Undisturbed(sv[v], PlannedRequest(cfg, DiskAfter(foreign, es), envs[0]), envs[0])
    ensures var f := DiskAfter(foreign, es);
            var r := RunTarget(cfg, false, f, envs);
            var g := Now(r.trail);
            && r.waits == [] && Part !in g && Meta !in g && Output in g
            && ((r.result.status.DownloadedStatus? && r.result.attempts == 1 && g[Output] == sv[v].content) ||
                (r.result.status.SkippedStatus? && Output in f && g[Output] == f[Output]
                 && IsValidFile(g, Output, Some(|sv[v].content|))))
  {
    hide NeverReusesValidators, CompliantHistory, DiskAfter, Undisturbed, Sound, WellFormed, Attempted, IsValidFile,
      HasSignature, IsRetryable, PlannedRequest, WaitAfter;
    var f := DiskAfter(foreign, es);
    CleanIsSound(sv, foreign);
    HistoryIsSound(sv, 0, FoundAtStart(foreign), foreign, es);
    AttemptConverges(sv, VersionReached(0, es), v, FoundAtStart(foreign), cfg, [f], envs[0]);
  }

  /** The undisturbed server is one of the compliant ones, so the assumptions of integrity are those of recovery too. */
  lemma UndisturbedIsCompliant(sv: Versions, v: nat, cfg: Config, f: Files, env: Env)
    requires v < |sv|
    requires Undisturbed(sv[v], PlannedRequest(cfg, f, env), env)
    ensures Compliant(sv, v, v, cfg, [f], env) && RecordsOwnBytes(sv[v], cfg, f, env)
  {
    hide Attempted, Decide, FetchMetadata, HasIdentity, ParseContentRange, ParseUint, PrintRange, Decimal, Body;
    var remote, ex := FetchMetadata(env.head).remote, env.exchange;
    var n := |sv[v].content|;
    var request := PlannedRequest(cfg, f, env);
    AttemptRequest(cfg, [f], env);
    PlansAreConditional(cfg.resume, f, remote);
    ParsePrintedUint(n);
    if !ServesWhole(sv[v], ex) {
      PrintedRangeParses(request.start, n - 1, n);
      assert sv[v].content[request.start..n] == sv[v].content[request.start..];
    }
  }

  /** An undisturbed run can be appended to any history: recovery itself is among the histories integrity speaks of. */
  lemma RecoveryIsAnEvent(
    sv: Versions, cur: nat, v: nat, foreign: set<Bytes>, f: Files, cfg: Config, envs: seq<Env>, served: seq<Moment>)
    requires NeverReusesValidators(sv) && Sound(sv, cur, foreign, f) && cur <= v < |sv|
    requires |sv[v].content| >= 4 && HasSignature(sv[v].content)
    requires cfg.resume && TotalAttempts(cfg) <= |envs| && |served| == |envs| && served[0] == Moment(v, v)
    requires Undisturbed(sv[v], PlannedRequest(cfg, f, envs[0]), envs[0])
    ensures CompliantEvent(sv, cur, f, Event(cfg, false, envs, served, v, None))
  {
    hide NeverReusesValidators, Sound, HasSignature, Undisturbed, Compliant, Attempted, IsRetryable, PlannedRequest;
    AttemptConverges(sv, cur, v, foreign, cfg, [f], envs[0]);
    UndisturbedIsCompliant(sv, v, cfg, f, envs[0]);
  }
}
