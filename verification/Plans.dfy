/**
 Exactly which disks and which answers to HEAD lead to which plan, and which attempts ask the server for what.
 */
module Plans {
  import opened Wrappers
  import opened Http
  import opened PartialMetadata
  import opened FileSystem
  import opened SafeReplace
  import opened Validation
  import opened Provider
  import opened Transfer
  import opened TransferProperties
  import opened Executor
  import opened ExecutorProperties
  import opened Acceptance
  import opened ResumeProperties

  /** The ".part" is there with a record that recognizes the remote file as its own, and is no longer than it. */
  ghost predicate Usable(resume: bool, f: Files, remote: Remote) {
    && resume
    && Part in f && f[Part] != "" && (remote.length.Some? ==> |f[Part]| <= remote.length.value)
    && HasIdentity(remote)
    && Meta in f && Recognizes(f[Meta], remote)
  }

  /**
   The four plans, each exactly when: a usable ".part" is promoted if it has the remote size and the signature,
   resumed at its end if it is not of the remote size and ranges are not refused, and any other ".part" discarded.
   */
  lemma PlanIff(resume: bool, f: Files, remote: Remote)
    ensures var p := Decide(resume, f, remote);
            && (p.Promote? <==>
                  && Usable(resume, f, remote)
                  && remote.length == Some(|f[Part]|) && |f[Part]| >= 4 && HasSignature(f[Part]))
            && (p.Resume? <==>
                  && Usable(resume, f, remote)
                  && remote.length != Some(|f[Part]|) && remote.acceptsRanges != Some(false))
            && (p == Fresh(false) <==> resume && Part !in f)
            && (p.Resume? ==>
                  p == Resume(|f[Part]|, if remote.etag.Some? then remote.etag else remote.lastModified))
  {
    hide Load, Matches, HasIdentity, HasSignature, ChooseIfRange;
    if Usable(resume, f, remote) {
      IfRangeIsETagFirst(f[Meta], remote);
    }
  }

  /** A recognized remote file is asked for under its ETag if it has one. */
  lemma IfRangeIsETagFirst(text: string, remote: Remote)
    requires Recognizes(text, remote)
    ensures ChooseIfRange(remote) == if remote.etag.Some? then remote.etag else remote.lastModified
  {
    hide LoadFrom;
    LoadedValidatorsAreClean(TextStream.Input(text, false, false), NOTHING_STORED, false);
  }

  /** The record is due, and writing it throws. */
  predicate RecordThrows(cfg: Config, remote: Remote, fault: MetaFault) {
    cfg.resume && HasIdentity(remote) && (fault.MetaOpenThrows? || fault.MetaWriteThrows?)
  }

  /** Writing the record, if it is due. */
  function RecordedIfDue(cfg: Config, u: Trail, remote: Remote, fault: MetaFault): (Trail, bool) {
    if cfg.resume && HasIdentity(remote) then MetadataWritten(u, remote, fault) else (u, false)
  }

  /** Everything an attempt does once it has a plan that is not a promotion. */
  lemma AttemptStreams(cfg: Config, t: Trail, env: Env, p: Plan)
    requires Streams(cfg, t, env, p)
    ensures var remote := FetchMetadata(env.head).remote;
            var w := RecordedIfDue(cfg, Planned(t, p, env.first), remote, env.metaFault);
            && (p.Resume? ==>
                  && Part in Now(t) && |Now(t)[Part]| == p.start && p.start > 0
                  && (remote.length.Some? ==> p.start < remote.length.value)
                  && Part in Now(w.0) && Now(w.0)[Part] == Now(t)[Part])
            && QuietlyContinues(t, w.0)
            && (w.1 <==> RecordThrows(cfg, remote, env.metaFault))
            && (if w.1 then Tried(cfg, t, env) == Attempt(w.0, Failed(OtherError), None)
                else
                  var s := Stream(w.0, remote, JobFor(p, remote), env.exchange);
                  if s.outcome.Rejected?
                  then Tried(cfg, t, env) == Attempt(s.trail, Failed(s.outcome.error), Some(RequestFor(p)))
                  else Tried(cfg, t, env) ==
                       Finished(s.trail, env, s.outcome.bytes, s.outcome.resumed, Some(RequestFor(p))))
  {
    hide FetchMetadata, Stream, RecordText, SkipsExisting, Decide, Replaced, HasIdentity, MetadataWritten, Finished;
    var remote, u := FetchMetadata(env.head).remote, Planned(t, p, env.first);
    PlanFacts(cfg.resume, Now(t), remote);
    PlansAreConditional(cfg.resume, Now(t), remote);
    PlanningIsQuiet(t, p, env.first);
    UnchangedIsQuiet(u);
    MetadataWriteIsQuiet(u, remote, env.metaFault);
    RecordIsRewritten(u, remote, env.metaFault);
    QuietTransitive(t, u, RecordedIfDue(cfg, u, remote, env.metaFault).0);
  }

  /** HEAD is believed or ignored, and the output does not make the attempt skip. */
  ghost predicate GoesOn(cfg: Config, f: Files, env: Env) {
    FetchMetadata(env.head).Metadata? && !SkipsExisting(cfg, f, FetchMetadata(env.head).remote)
  }

  /** Exactly when an attempt sends a GET. */
  lemma AttemptAsksIff(cfg: Config, t: Trail, env: Env)
    ensures Attempted(cfg, t, env).request.Some? <==>
            && GoesOn(cfg, Now(t), env)
            && !Decide(cfg.resume, Now(t), FetchMetadata(env.head).remote).Promote?
            && !RecordThrows(cfg, FetchMetadata(env.head).remote, env.metaFault)
  {
    hide FetchMetadata, Stream, MetadataWritten, Decide, Replaced, HasIdentity, SkipsExisting;
    if GoesOn(cfg, Now(t), env) {
      var p := Decide(cfg.resume, Now(t), FetchMetadata(env.head).remote);
      if !p.Promote? {
        AttemptStreams(cfg, t, env, p);
      }
    }
  }

  /**
   Exactly when an attempt asks for a range: its GET is sent, and there is a usable ".part" of another size than the
   remote one, which HEAD has not said to be out of reach of ranges. It then asks for the rest, under the ETag first.
   */
  lemma AttemptSendsRangeIff(cfg: Config, t: Trail, env: Env)
    ensures var request := Attempted(cfg, t, env).request;
            && (request.Some? && SendsRange(request.value) <==>
                  && GoesOn(cfg, Now(t), env)
                  && var remote := FetchMetadata(env.head).remote;
                     && Usable(cfg.resume, Now(t), remote)
                     && remote.length != Some(|Now(t)[Part]|) && remote.acceptsRanges != Some(false)
                     && !RecordThrows(cfg, remote, env.metaFault))
            && (request.Some? && SendsRange(request.value) ==>
                  var remote := FetchMetadata(env.head).remote;
                  request.value ==
                  Request(|Now(t)[Part]|, if remote.etag.Some? then remote.etag else remote.lastModified))
            && (request.Some? && !SendsRange(request.value) ==> request.value == Request(0, None))
  {
    hide FetchMetadata, Attempted, Decide, HasIdentity, SkipsExisting, Recognizes;
    AttemptAsksIff(cfg, t, env);
    AttemptRequest(cfg, t, env);
    if GoesOn(cfg, Now(t), env) {
      PlanIff(cfg.resume, Now(t), FetchMetadata(env.head).remote);
    }
  }

  /** A server that refuses ranges is never asked for one, and a ".part" that is not yet the file is given up. */
  lemma RefusedRangesAreNotAskedFor(cfg: Config, t: Trail, env: Env)
    requires FetchMetadata(env.head).Metadata? && FetchMetadata(env.head).remote.acceptsRanges == Some(false)
    ensures var a := Attempted(cfg, t, env); a.request.Some? ==> a.request.value == Request(0, None)
    ensures var remote := FetchMetadata(env.head).remote;
            GoesOn(cfg, Now(t), env) && Part in Now(t) && remote.length != Some(|Now(t)[Part]|) ==>
              DiscardsPart(cfg, t, env)
  {
    hide FetchMetadata, Attempted, Decide, HasIdentity, SkipsExisting, Recognizes;
    var remote := FetchMetadata(env.head).remote;
    AttemptSendsRangeIff(cfg, t, env);
    PlanIff(cfg.resume, Now(t), remote);
    if GoesOn(cfg, Now(t), env) && Part in Now(t) && !Decide(cfg.resume, Now(t), remote).Promote? {
      DiscardedFirst(cfg, t, env);
    }
  }

  /** The attempt passes through the disk without ".part" and record, or with what their removal leaves. */
  ghost predicate DiscardsPart(cfg: Config, t: Trail, env: Env) {
    PartialRemoved(t, env.first) <= Attempted(cfg, t, env).trail
  }

  lemma DiscardedFirst(cfg: Config, t: Trail, env: Env)
    requires GoesOn(cfg, Now(t), env)
    requires Decide(cfg.resume, Now(t), FetchMetadata(env.head).remote) == Fresh(true)
    ensures DiscardsPart(cfg, t, env)
  {
    hide FetchMetadata, SkipsExisting, HasIdentity, Decide, MetadataWritten, Stream, Replaced, PartialRemoved;
    var remote, p := FetchMetadata(env.head).remote, Plan.Fresh(true);
    var u := Planned(t, p, env.first);
    var w := RecordedIfDue(cfg, u, remote, env.metaFault);
    var s := Stream(w.0, remote, JobFor(p, remote), env.exchange);
    MetadataWriteIsQuiet(u, remote, env.metaFault);
    StreamIsQuiet(w.0, remote, JobFor(p, remote), env.exchange);
    ReplacementOutputs(s.trail, env.replaceFault);
    RemovalKeepsOutput(Replaced(s.trail, env.replaceFault).0, env.last);
    RemovalKeepsOutput(Tried(cfg, t, env).trail, env.last);
  }

  /** Once HEAD reports anything else than was recorded, the ".part" is discarded and the whole file asked for. */
  lemma ChangedRemoteStartsOver(cfg: Config, t: Trail, env: Env, written: Remote)
    requires GoesOn(cfg, Now(t), env) && Part in Now(t)
    requires Meta in Now(t) && Now(t)[Meta] <= MetadataText(written)
    requires !Agrees(written, FetchMetadata(env.head).remote)
    ensures DiscardsPart(cfg, t, env)
    ensures var a := Attempted(cfg, t, env); a.request.Some? ==> a.request.value == Request(0, None)
  {
    hide FetchMetadata, Attempted, Decide, HasIdentity, SkipsExisting, Recognizes, MetadataText, Agrees;
    var remote := FetchMetadata(env.head).remote;
    if Recognizes(Now(t)[Meta], remote) {
      CutRecordAgrees(written, Now(t)[Meta], remote);
    }
    PlanIff(cfg.resume, Now(t), remote);
    AttemptSendsRangeIff(cfg, t, env);
    DiscardedFirst(cfg, t, env);
  }

  /** A promotion asks for nothing, and reports a recovered file, exactly when no rename throws. */
  lemma PromotionIff(cfg: Config, t: Trail, env: Env)
    requires GoesOn(cfg, Now(t), env) && Decide(cfg.resume, Now(t), FetchMetadata(env.head).remote).Promote?
    ensures var a := Attempted(cfg, t, env);
            && Part in Now(t) && a.request.None?
            && (a.verdict ==
                if ReplacementWorks(Now(t), env.replaceFault) then Downloaded(0, true) else Failed(OtherError))
            && (a.verdict.Downloaded? ==> Output in Now(a.trail) && Now(a.trail)[Output] == Now(t)[Part])
            && (a.verdict.Failed? ==> Part in Now(a.trail) && Now(a.trail)[Part] == Now(t)[Part])
  {
    hide FetchMetadata, Decide, HasIdentity, SkipsExisting;
    PlanFacts(cfg.resume, Now(t), FetchMetadata(env.head).remote);
    FinishingIff(t, env, 0, true, None);
    if !ReplacementWorks(Now(t), env.replaceFault) {
      FailedReplacementKeepsPart(t, env, 0, true, None);
    }
  }

  /** A replacement that throws is a local failure and leaves ".part" where it was. */
  lemma FailedReplacementKeepsPart(u: Trail, env: Env, bytes: nat, resumed: bool, request: Option<Request>)
    requires Part in Now(u) && !ReplacementWorks(Now(u), env.replaceFault)
    ensures var a := Finished(u, env, bytes, resumed, request);
            a.verdict == Failed(OtherError) && Part in Now(a.trail) && Now(a.trail)[Part] == Now(u)[Part]
  {
  }

  /** Without resume, or for a remote file without identity, no record is ever written. */
  lemma NoRecordWithoutIdentity(cfg: Config, t: Trail, env: Env)
    requires FetchMetadata(env.head).Metadata?
    requires !cfg.resume || !HasIdentity(FetchMetadata(env.head).remote)
    ensures var a := Attempted(cfg, t, env);
            forall i | |t| <= i < |a.trail| && Meta in a.trail[i] ::
              Meta in Now(t) && a.trail[i][Meta] == Now(t)[Meta]
  {
    hide FetchMetadata, Decide, HasIdentity, SkipsExisting, Stream, Replaced, PartialRemoved;
    var remote := FetchMetadata(env.head).remote;
    var p := Decide(cfg.resume, Now(t), remote);
    var u := Planned(t, p, env.first);
    var s := Stream(u, remote, JobFor(p, remote), env.exchange);
    PlanFacts(cfg.resume, Now(t), remote);
    RemovalLeavesRecord(t, env.first);
    if GoesOn(cfg, Now(t), env) && !p.Promote? {
      StreamLeavesRecord(u, remote, p, env.exchange);
    }
    ReplacementLeavesRecord(if p.Promote? then t else s.trail, env.replaceFault);
    RemovalLeavesRecord(Replaced(if p.Promote? then t else s.trail, env.replaceFault).0, env.last);
    RemovalLeavesRecord(Tried(cfg, t, env).trail, env.last);
  }

  /** Every state added has the record as it was, or none. */
  ghost predicate LeavesRecord(t: Trail, later: Trail) {
    && t <= later
    && (forall i | |t| <= i < |later| && Meta in later[i] :: Meta in Now(t) && later[i][Meta] == Now(t)[Meta])
    && (Meta in Now(later) ==> Meta in Now(t) && Now(later)[Meta] == Now(t)[Meta])
  }

  lemma RemovalLeavesRecord(t: Trail, kept: Kept)
    ensures LeavesRecord(t, PartialRemoved(t, kept))
  {
  }

  lemma ReplacementLeavesRecord(t: Trail, fault: Fault)
    ensures LeavesRecord(t, Replaced(t, fault).0)
  {
  }

  lemma ReachableLeavesRecord(f: Files, base: Files, kept: Bytes, whole: Bytes)
    requires Reachable(f, base, kept, whole)
    ensures Meta in f ==> Meta in base && f[Meta] == base[Meta]
  {
    assert Meta in f <==> Meta in f - {Part};
    assert Meta in base <==> Meta in base - {Part};
  }

  lemma JudgingLeavesRecord(t: Trail, remote: Remote, job: Job, response: Response, written: nat, kept: Kept)
    ensures LeavesRecord(t, Judged(t, remote, job, response, written, kept).trail)
  {
    hide ContentRange.ExpectedTotal, IsValidFile, RetryAfterSeconds, PartialRemoved;
    RemovalLeavesRecord(t, kept);
  }

  lemma LeavingRecordJoins(t: Trail, t1: Trail, t2: Trail)
    requires LeavesRecord(t, t1) && LeavesRecord(t1, t2)
    ensures LeavesRecord(t, t2)
  {
  }

  lemma StreamLeavesRecord(t: Trail, remote: Remote, p: Plan, ex: Exchange)
    requires p.Resume? ==> Part in Now(t) && |Now(t)[Part]| == p.start
    ensures LeavesRecord(t, Stream(t, remote, JobFor(p, remote), ex).trail)
  {
    hide Perform, Closed, Judged, Body, Reachable, QuietlyContinues;
    var job := JobFor(p, remote);
    var perf := Perform(t, job, ex);
    var c := Closed(perf.trail, perf.sink, ex.flushLoss).0;
    var written := if perf.sink.Open? then perf.sink.written else 0;
    var kept := KeptPrefix(job, ex.response, Now(t));
    TransferOutcome(t, job, ex);
    forall i | |t| <= i < |c|
      ensures Meta in c[i] ==> Meta in Now(t) && c[i][Meta] == Now(t)[Meta]
    {
      ReachableLeavesRecord(c[i], Now(t), kept, kept + Landing(job, ex));
    }
    ReachableLeavesRecord(Now(c), Now(t), kept, kept + Landing(job, ex));
    JudgingLeavesRecord(c, remote, job, Returned(ex), written, ex.refused);
    LeavingRecordJoins(t, c, Judged(c, remote, job, Returned(ex), written, ex.refused).trail);
  }
}
