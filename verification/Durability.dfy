/**
 A file once in place is never lost: over any history against a compliant server, and at every point where it
 may crash, the output or else its backup holds a complete file.
 */
module Durability {
  import opened Wrappers
  import opened PartialMetadata
  import opened FileSystem
  import opened SafeReplace
  import opened Provider
  import opened Executor
  import opened ExecutorProperties
  import opened Acceptance
  import opened Server
  import opened Integrity
  import opened History

  /** Later continues t, and every state added has a complete file in place. */
  ghost predicate StaysSettled(t: Trail, later: Trail, complete: set<Bytes>) {
    && t <= later
    && (forall i | |t| <= i < |later| :: Settled(later[i], complete))
    && Settled(Now(later), complete)
  }

  lemma SettledJoins(t: Trail, t1: Trail, t2: Trail, complete: set<Bytes>)
    requires StaysSettled(t, t1, complete) && StaysSettled(t1, t2, complete)
    ensures StaysSettled(t, t2, complete)
  {
    hide Settled;
  }

  lemma QuietKeepsSettled(f: Files, base: Files, complete: set<Bytes>)
    requires Quiet(f, base) && Settled(base, complete)
    ensures Settled(f, complete)
  {
    forall s: Slot | s == Output || s == Backup
      ensures (s in f <==> s in base) && (s in f ==> f[s] == base[s])
    {
      assert s in f - {Part, Meta} <==> s in base - {Part, Meta};
    }
  }

  lemma QuietlyStaysSettled(t: Trail, later: Trail, complete: set<Bytes>)
    requires QuietlyContinues(t, later) && Settled(Now(t), complete)
    ensures StaysSettled(t, later, complete)
  {
    hide Settled, Quiet;
    forall i | |t| <= i < |later|
      ensures Settled(later[i], complete)
    {
      QuietKeepsSettled(later[i], Now(t), complete);
    }
    QuietKeepsSettled(Now(later), Now(t), complete);
  }

  lemma FinishingStaysSettled(
    u: Trail, env: Env, bytes: nat, resumed: bool, request: Option<Request>, complete: set<Bytes>)
    requires Settled(Now(u), complete) && (Part in Now(u) ==> Now(u)[Part] in complete)
    ensures StaysSettled(u, Finished(u, env, bytes, resumed, request).trail, complete)
  {
    hide Settled, Replaced, Quiet;
    var r := Replaced(u, env.replaceFault);
    ReplaceStaysSettled(u, env.replaceFault, complete);
    assert Settled(Now(r.0), complete) by {
      assert Now(r.0) == r.0[|r.0| - 1];
    }
    RemovalIsQuiet(r.0, env.last);
    QuietlyStaysSettled(r.0, PartialRemoved(r.0, env.last), complete);
  }

  ghost predicate HoldsVersions(complete: set<Bytes>, sv: Versions) {
    forall i | 0 <= i < |sv| :: sv[i].content in complete
  }

  lemma TransferredStaysSettled(
    sv: Versions, h: nat, g: nat, foreign: set<Bytes>, complete: set<Bytes>, cfg: Config, t: Trail, remote: Remote,
    p: Plan, env: Env)
    requires NeverReusesValidators(sv) && h <= g < |sv| && Describes(remote, sv[h]) && HoldsVersions(complete, sv)
    requires ReadyToStream(sv, h, foreign, Now(t), p) && PlannedFor(Now(t), remote, p) && Settled(Now(t), complete)
    requires WritesRecord(cfg, remote, env) ==> ReadyFor(sv, h, foreign, Now(t))
    requires Transferred(cfg, t, remote, p, env).request.Some? ==> TruthfulGet(sv[g], RequestFor(p), env.exchange)
    ensures StaysSettled(t, Transferred(cfg, t, remote, p, env).trail, complete)
  {
    hide NeverReusesValidators, MetadataWritten, Stream, Finished, TruthfulGet, Describes, ReadyFor, ReadyToStream,
      Settled, QuietlyContinues, HasIdentity;
    var w := if cfg.resume && HasIdentity(remote) then MetadataWritten(t, remote, env.metaFault) else (t, false);
    UnchangedIsQuiet(t);
    MetadataWriteIsQuiet(t, remote, env.metaFault);
    RecordingIsSound(sv, h, foreign, cfg, t, remote, p, env);
    QuietlyStaysSettled(t, w.0, complete);
    if !w.1 {
      var s := Stream(w.0, remote, JobFor(p, remote), env.exchange);
      StreamIsQuiet(w.0, remote, JobFor(p, remote), env.exchange);
      QuietlyStaysSettled(w.0, s.trail, complete);
      SettledJoins(t, w.0, s.trail, complete);
      if s.outcome.Accepted? {
        var bytes, resumed, request := s.outcome.bytes, s.outcome.resumed, Some(RequestFor(p));
        FinishedRequest(s.trail, env, s.outcome, request);
        AcceptedPartIsVersion(sv, h, g, foreign, w.0, remote, p, env.exchange);
        FinishingStaysSettled(s.trail, env, bytes, resumed, request, complete);
        SettledJoins(t, s.trail, Finished(s.trail, env, bytes, resumed, request).trail, complete);
      }
    }
  }

  lemma TriedStaysSettled(
    sv: Versions, cur: nat, h: nat, g: nat, foreign: set<Bytes>, complete: set<Bytes>, cfg: Config, t: Trail, env: Env)
    requires NeverReusesValidators(sv) && Sound(sv, cur, foreign, Now(t)) && cur <= h <= g < |sv|
    requires HoldsVersions(complete, sv) && Settled(Now(t), complete)
    requires TruthfulHead(sv[h], env.head) && RecordsOwnBytes(sv[h], cfg, Now(t), env)
    requires var r := Tried(cfg, t, env).request; r.Some? ==> TruthfulGet(sv[g], r.value, env.exchange)
    ensures StaysSettled(t, Tried(cfg, t, env).trail, complete)
  {
    hide Sound, NeverReusesValidators, Transferred, Finished, TruthfulGet, Describes, SkipsExisting, FetchMetadata,
      Decide, Planned, Settled, QuietlyContinues, RecordsOwnBytes, ReadyToStream, ReadyFor, PlannedFor;
    UnchangedIsQuiet(t);
    QuietlyStaysSettled(t, t, complete);
    match FetchMetadata(env.head)
    case HeadRejected(_) =>
    case Metadata(remote) =>
      if SkipsExisting(cfg, Now(t), remote) {
        RemovalIsQuiet(t, env.first);
        QuietlyStaysSettled(t, PartialRemoved(t, env.first), complete);
      } else {
        var p := Decide(cfg.resume, Now(t), remote);
        PlannedStates(sv, cur, h, foreign, cfg, t, remote, env);
        if p.Promote? {
          FinishingStaysSettled(t, env, 0, true, None, complete);
        } else {
          var t1 := Planned(t, p, env.first);
          PlanningIsQuiet(t, p, env.first);
          QuietlyStaysSettled(t, t1, complete);
          TransferredRequest(cfg, t1, remote, p, env);
          TransferredStaysSettled(sv, h, g, foreign, complete, cfg, t1, remote, p, env);
          SettledJoins(t, t1, Transferred(cfg, t1, remote, p, env).trail, complete);
        }
      }
  }

  lemma AttemptStaysSettled(
    sv: Versions, cur: nat, h: nat, g: nat, foreign: set<Bytes>, complete: set<Bytes>, cfg: Config, t: Trail, env: Env)
    requires NeverReusesValidators(sv) && Sound(sv, cur, foreign, Now(t)) && cur <= h
    requires HoldsVersions(complete, sv) && Settled(Now(t), complete)
    requires Compliant(sv, h, g, cfg, t, env) && RecordsOwnBytes(sv[h], cfg, Now(t), env)
    ensures StaysSettled(t, Attempted(cfg, t, env).trail, complete)
  {
    hide Sound, NeverReusesValidators, Tried, TruthfulHead, TruthfulGet, Settled, QuietlyContinues, RecordsOwnBytes;
    var a := Tried(cfg, t, env);
    TriedStaysSettled(sv, cur, h, g, foreign, complete, cfg, t, env);
    var cleared := PartialRemoved(a.trail, env.last);
    RemovalIsQuiet(a.trail, env.last);
    QuietlyStaysSettled(a.trail, cleared, complete);
    SettledJoins(t, a.trail, cleared, complete);
  }

  lemma {:induction false} RunStaysSettled(
    sv: Versions, cur: nat, foreign: set<Bytes>, complete: set<Bytes>, cfg: Config, t: Trail, envs: seq<Env>,
    served: seq<Moment>, attempt: nat, upto: nat)
    requires 1 <= attempt <= TotalAttempts(cfg) <= |envs| && |served| == |envs|
    requires NeverReusesValidators(sv) && Sound(sv, cur, foreign, Now(t))
    requires HoldsVersions(complete, sv) && Settled(Now(t), complete)
    requires CompliantFrom(sv, cur, cfg, t, envs, served, attempt, upto)
    ensures StaysSettled(t, RunFrom(cfg, t, envs, attempt).trail, complete)
    decreases TotalAttempts(cfg) - attempt
  {
    hide Sound, NeverReusesValidators, Attempted, Compliant, RecordsOwnBytes, IsRetryable, WaitAfter, Settled,
      HoldsVersions;
    var h, g := served[attempt - 1].head, served[attempt - 1].get;
    var a := Attempted(cfg, t, envs[attempt - 1]);
    AttemptIsSound(sv, cur, h, g, foreign, cfg, t, envs[attempt - 1]);
    AttemptStaysSettled(sv, cur, h, g, foreign, complete, cfg, t, envs[attempt - 1]);
    if Retries(cfg, a, attempt) {
      RunStaysSettled(sv, g, foreign, complete, cfg, a.trail, envs, served, attempt + 1, upto);
      SettledJoins(t, a.trail, RunFrom(cfg, a.trail, envs, attempt + 1).trail, complete);
    }
  }

  /** Every state of a run has a complete file in place, so every crash leaves one. */
  lemma EventStaysSettled(sv: Versions, cur: nat, foreign: set<Bytes>, complete: set<Bytes>, f: Files, e: Event)
    requires NeverReusesValidators(sv) && Sound(sv, cur, foreign, f) && CompliantEvent(sv, cur, f, e)
    requires HoldsVersions(complete, sv) && Settled(f, complete)
    ensures Settled(AfterEvent(f, e), complete)
  {
    hide Sound, NeverReusesValidators, RunFrom, CompliantFrom, Settled, HoldsVersions;
    if !e.lockBusy {
      RunStaysSettled(sv, cur, foreign, complete, e.cfg, [f], e.envs, e.served, 1, e.upto);
      assert forall i | 0 <= i < |EventTrail(f, e)| :: i == 0 || Settled(EventTrail(f, e)[i], complete);
      assert EventTrail(f, e)[0] == f;
    }
  }

  lemma {:induction false} HistoryStaysSettled(
    sv: Versions, cur: nat, foreign: set<Bytes>, complete: set<Bytes>, f: Files, es: seq<Event>)
    requires NeverReusesValidators(sv) && Sound(sv, cur, foreign, f) && CompliantHistory(sv, cur, f, es)
    requires HoldsVersions(complete, sv) && Settled(f, complete)
    ensures forall i | 0 <= i < |es| :: WellFormed(es[i])
    ensures Settled(DiskAfter(f, es), complete)
    decreases |es|
  {
    hide Sound, NeverReusesValidators, AfterEvent, WellFormed, CompliantEvent, CompliantFrom, Delivers, EventTrail,
      RunTarget, Settled, HoldsVersions;
    HistoryIsSound(sv, cur, foreign, f, es);
    if es != [] {
      CompliantIsWellFormed(sv, cur, f, es[0]);
      EventIsSound(sv, cur, foreign, f, es[0]);
      EventStaysSettled(sv, cur, foreign, complete, f, es[0]);
      HistoryStaysSettled(sv, es[0].upto, foreign, complete, AfterEvent(f, es[0]), es[1..]);
    }
  }

  ghost function Contents(sv: Versions): set<Bytes> {
    set i | 0 <= i < |sv| :: sv[i].content
  }

  /** An output found at the start stays until a version takes its place; in between, one of them is the backup. */
  lemma OutputIsNeverLost(sv: Versions, f: Files, es: seq<Event>)
    requires |sv| > 0 && NeverReusesValidators(sv)
    requires Clean(f) && Output in f && CompliantHistory(sv, 0, f, es)
    ensures forall i | 0 <= i < |es| :: WellFormed(es[i])
    ensures Settled(DiskAfter(f, es), Contents(sv) + {f[Output]})
  {
    hide NeverReusesValidators, CompliantHistory, DiskAfter, WellFormed;
    HistoryStaysSettled(sv, 0, FoundAtStart(f), Contents(sv) + {f[Output]}, f, es);
  }

  /**
   Durability: once a run has reported a download, whatever follows, with any settings, failures, crashes and
   content changes, leaves a complete version at the output, or at the backup while there is no output.
   */
  lemma DownloadIsNeverLost(sv: Versions, f: Files, es: seq<Event>, e: Event, later: seq<Event>)
    requires |sv| > 0 && NeverReusesValidators(sv)
    requires Clean(f) && CompliantHistory(sv, 0, f, es)
    requires forall i | 0 <= i < |es| :: WellFormed(es[i])
    requires CompliantEvent(sv, VersionReached(0, es), DiskAfter(f, es), e)
    requires e.crash.None? && RunTarget(e.cfg, e.lockBusy, DiskAfter(f, es), e.envs).result.status.DownloadedStatus?
    requires CompliantHistory(sv, e.upto, AfterEvent(DiskAfter(f, es), e), later)
    ensures forall i | 0 <= i < |later| :: WellFormed(later[i])
    ensures Settled(DiskAfter(AfterEvent(DiskAfter(f, es), e), later), Contents(sv))
  {
    hide NeverReusesValidators, CompliantHistory, DiskAfter, CompliantEvent, RunTarget, WellFormed, Sound;
    var f1 := DiskAfter(f, es);
    CleanIsSound(sv, f);
    CompliantIsWellFormed(sv, VersionReached(0, es), f1, e);
    HistoryIsSound(sv, 0, FoundAtStart(f), f, es);
    EventIsSound(sv, VersionReached(0, es), FoundAtStart(f), f1, e);
    HistoryStaysSettled(sv, e.upto, FoundAtStart(f), Contents(sv), AfterEvent(f1, e), later);
  }
}
