/**
 Single-version integrity over whole histories: any sequence of runs with any settings, each with its retries,
 cut transfers, local failures and content changes, each stopped by a crash at any state or left to finish.
 */
module History {
  import opened Wrappers
  import opened FileSystem
  import opened Executor
  import opened Server
  import opened Integrity

  /** The versions at which one attempt's HEAD and GET were answered. */
  datatype Moment = Moment(head: nat, get: nat)

  /** One run: its settings, what happened to it, how far the server got by its end, and where it crashed if it did. */
  datatype Event = Event(
    cfg: Config, lockBusy: bool, envs: seq<Env>, served: seq<Moment>, upto: nat, crash: Option<nat>)

  predicate WellFormed(e: Event) {
    TotalAttempts(e.cfg) <= |e.envs| && |e.served| == |e.envs|
  }

  /**
   The server only moves forward, and answers each attempt of the run from the version it has reached; and no
   attempt writes a record beside bytes of another version that it failed to remove.
   */
  ghost predicate CompliantFrom(
    sv: Versions, cur: nat, cfg: Config, t: Trail, envs: seq<Env>, served: seq<Moment>, attempt: nat, upto: nat)
    requires 1 <= attempt <= TotalAttempts(cfg) <= |envs| && |served| == |envs|
    decreases TotalAttempts(cfg) - attempt
  {
    var h, g := served[attempt - 1].head, served[attempt - 1].get;
    var a := Attempted(cfg, t, envs[attempt - 1]);
    && cur <= h && g <= upto < |sv|
    && Compliant(sv, h, g, cfg, t, envs[attempt - 1])
    && RecordsOwnBytes(sv[h], cfg, Now(t), envs[attempt - 1])
    && (Retries(cfg, a, attempt) ==> CompliantFrom(sv, g, cfg, a.trail, envs, served, attempt + 1, upto))
  }

  ghost predicate CompliantEvent(sv: Versions, cur: nat, f: Files, e: Event) {
    && WellFormed(e)
    && cur <= e.upto < |sv|
    && (!e.lockBusy ==> CompliantFrom(sv, cur, e.cfg, [f], e.envs, e.served, 1, e.upto))
  }

  function EventTrail(f: Files, e: Event): Trail
    requires WellFormed(e)
  {
    RunTarget(e.cfg, e.lockBusy, f, e.envs).trail
  }

  /** What the event leaves on disk: its last state, or any state it passed through if it crashed there. */
  function AfterEvent(f: Files, e: Event): Files
    requires WellFormed(e)
  {
    var t := EventTrail(f, e);
    if e.crash.Some? && e.crash.value < |t| then t[e.crash.value] else Now(t)
  }

  ghost predicate CompliantHistory(sv: Versions, cur: nat, f: Files, es: seq<Event>)
    decreases |es|
  {
    es != [] ==>
      && CompliantEvent(sv, cur, f, es[0])
      && CompliantHistory(sv, es[0].upto, AfterEvent(f, es[0]), es[1..])
  }

  function DiskAfter(f: Files, es: seq<Event>): Files
    requires forall i | 0 <= i < |es| :: WellFormed(es[i])
    decreases |es|
  {
    if es == [] then f else DiskAfter(AfterEvent(f, es[0]), es[1..])
  }

  function VersionReached(cur: nat, es: seq<Event>): nat {
    if es == [] then cur else es[|es| - 1].upto
  }

  /** A run that reports a download has put a version in place that was being served during the run, or is newer. */
  ghost predicate Delivers(sv: Versions, cur: nat, upto: nat, r: Run) {
    r.result.status.DownloadedStatus? ==>
      Output in Now(r.trail) && exists v: nat :: cur <= v <= upto && v < |sv| && Now(r.trail)[Output] == sv[v].content
  }

  lemma {:induction false} RunFromIsSound(
    sv: Versions, cur: nat, foreign: set<Bytes>, cfg: Config, t: Trail, envs: seq<Env>, served: seq<Moment>,
    attempt: nat, upto: nat)
    requires 1 <= attempt <= TotalAttempts(cfg) <= |envs| && |served| == |envs|
    requires NeverReusesValidators(sv) && Sound(sv, cur, foreign, Now(t))
    requires CompliantFrom(sv, cur, cfg, t, envs, served, attempt, upto)
    ensures SoundlyContinues(sv, upto, foreign, t, RunFrom(cfg, t, envs, attempt).trail)
    ensures Delivers(sv, cur, upto, RunFrom(cfg, t, envs, attempt))
    decreases TotalAttempts(cfg) - attempt
  {
    hide Sound, NeverReusesValidators, Attempted, Compliant, RecordsOwnBytes, IsRetryable, WaitAfter;
    var h, g := served[attempt - 1].head, served[attempt - 1].get;
    var a := Attempted(cfg, t, envs[attempt - 1]);
    AttemptIsSound(sv, cur, h, g, foreign, cfg, t, envs[attempt - 1]);
    if Retries(cfg, a, attempt) {
      RunFromIsSound(sv, g, foreign, cfg, a.trail, envs, served, attempt + 1, upto);
      SoundJoins(sv, g, upto, foreign, t, a.trail, RunFrom(cfg, a.trail, envs, attempt + 1).trail);
    } else {
      SoundIsMonotone(sv, g, upto, foreign, Now(a.trail));
      UnchangedIsSound(sv, upto, foreign, a.trail);
      SoundJoins(sv, g, upto, foreign, t, a.trail, a.trail);
    }
  }

  /** Every state of a run is sound, so every crash leaves a sound disk. */
  lemma EventIsSound(sv: Versions, cur: nat, foreign: set<Bytes>, f: Files, e: Event)
    requires NeverReusesValidators(sv) && Sound(sv, cur, foreign, f) && CompliantEvent(sv, cur, f, e)
    ensures SoundSince(sv, e.upto, foreign, EventTrail(f, e), 0)
    ensures Sound(sv, e.upto, foreign, AfterEvent(f, e))
    ensures Delivers(sv, cur, e.upto, RunTarget(e.cfg, e.lockBusy, f, e.envs))
  {
    hide Sound, NeverReusesValidators, RunFrom, CompliantFrom;
    SoundIsMonotone(sv, cur, e.upto, foreign, f);
    if !e.lockBusy {
      RunFromIsSound(sv, cur, foreign, e.cfg, [f], e.envs, e.served, 1, e.upto);
    }
    var t := EventTrail(f, e);
    forall i | 0 <= i < |t|
      ensures Sound(sv, e.upto, foreign, t[i])
    {
      if i == 0 {
        assert t[0] == f;
      }
    }
  }

  lemma CompliantIsWellFormed(sv: Versions, cur: nat, f: Files, e: Event)
    requires CompliantEvent(sv, cur, f, e)
    ensures WellFormed(e) && cur <= e.upto < |sv|
  {
  }

  /** The invariant holds after every history. */
  lemma {:induction false} HistoryIsSound(sv: Versions, cur: nat, foreign: set<Bytes>, f: Files, es: seq<Event>)
    requires NeverReusesValidators(sv) && Sound(sv, cur, foreign, f) && CompliantHistory(sv, cur, f, es)
    ensures forall i | 0 <= i < |es| :: WellFormed(es[i])
    ensures Sound(sv, VersionReached(cur, es), foreign, DiskAfter(f, es))
    decreases |es|
  {
    hide Sound, NeverReusesValidators, AfterEvent, WellFormed, CompliantEvent, CompliantFrom, Delivers, EventTrail,
      RunTarget;
    if es != [] {
      CompliantIsWellFormed(sv, cur, f, es[0]);
      EventIsSound(sv, cur, foreign, f, es[0]);
      HistoryIsSound(sv, es[0].upto, foreign, AfterEvent(f, es[0]), es[1..]);
      forall i | 0 <= i < |es|
        ensures WellFormed(es[i])
      {
        assert i > 0 ==> es[i] == es[1..][i - 1];
      }
    }
  }

  /** A disk without partial state: nothing, or only an output and a backup from elsewhere. */
  ghost predicate Clean(f: Files) {
    Part !in f && Meta !in f
  }

  ghost function FoundAtStart(f: Files): set<Bytes> {
    (if Output in f then {f[Output]} else {}) + (if Backup in f then {f[Backup]} else {})
  }

  lemma CleanIsSound(sv: Versions, f: Files)
    requires |sv| > 0 && Clean(f)
    ensures Sound(sv, 0, FoundAtStart(f), f)
  {
  }

  /** After a history, a run that reports a download has put a version in place no older than the history's last. */
  lemma DownloadIsCurrent(sv: Versions, f: Files, es: seq<Event>, e: Event)
    requires |sv| > 0 && NeverReusesValidators(sv)
    requires Clean(f) && CompliantHistory(sv, 0, f, es)
    requires forall i | 0 <= i < |es| :: WellFormed(es[i])
    requires CompliantEvent(sv, VersionReached(0, es), DiskAfter(f, es), e)
    ensures var r := RunTarget(e.cfg, e.lockBusy, DiskAfter(f, es), e.envs);
            r.result.status.DownloadedStatus? ==>
              && Output in Now(r.trail)
              && exists v: nat ::
                   VersionReached(0, es) <= v <= e.upto && v < |sv| && Now(r.trail)[Output] == sv[v].content
  {
    hide NeverReusesValidators, CompliantHistory, DiskAfter, CompliantEvent, RunTarget, WellFormed;
    HistoryIsSound(sv, 0, FoundAtStart(f), f, es);
    EventIsSound(sv, VersionReached(0, es), FoundAtStart(f), DiskAfter(f, es), e);
  }

  /**
   Single-version integrity: against a server that never reuses a validator and answers as RFC 9110 says, in
   every state that any history of runs, retries, cuts, failures, crashes and content changes can reach, the
   output is byte for byte one complete version, or a file that was there before the first run. A splice of
   two versions is never promoted.
   */
  lemma SingleVersionIntegrity(sv: Versions, f: Files, es: seq<Event>)
    requires |sv| > 0 && NeverReusesValidators(sv)
    requires Clean(f) && CompliantHistory(sv, 0, f, es)
    ensures forall i | 0 <= i < |es| :: WellFormed(es[i])
    ensures var g := DiskAfter(f, es);
            Output in g ==> g[Output] in FoundAtStart(f) || exists v: nat :: v < |sv| && g[Output] == sv[v].content
  {
    hide NeverReusesValidators, CompliantHistory, DiskAfter, WellFormed;
    HistoryIsSound(sv, 0, FoundAtStart(f), f, es);
  }

  /** Starting with an empty directory, the output is always one complete version of the file. */
  lemma FromScratchOutputIsAVersion(sv: Versions, es: seq<Event>)
    requires |sv| > 0 && NeverReusesValidators(sv)
    requires CompliantHistory(sv, 0, map[], es)
    ensures forall i | 0 <= i < |es| :: WellFormed(es[i])
    ensures var g := DiskAfter(map[], es);
            Output in g ==> exists v: nat :: v < |sv| && g[Output] == sv[v].content
  {
    hide NeverReusesValidators, CompliantHistory, DiskAfter, WellFormed;
    SingleVersionIntegrity(sv, map[], es);
  }
}
