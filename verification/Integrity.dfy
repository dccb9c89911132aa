/**
 Single-version integrity of one attempt: against a server that never reuses a validator, nothing an attempt
 does, and no point at which it stops, can mix the bytes of two versions.
 */
module Integrity {
  import opened Wrappers
  import opened Text
  import opened Http
  import opened ContentRange
  import opened PartialMetadata
  import opened FileSystem
  import opened SafeReplace
  import opened Validation
  import opened Provider
  import opened Transfer
  import opened TransferProperties
  import opened Executor
  import opened ExecutorProperties
  import opened ResumeProperties
  import opened Server

  // ----- the invariant

  /** Text that is a beginning of the record written for a description of version w. */
  ghost predicate RecordsVersion(sv: Versions, w: nat, written: Remote, text: Bytes) {
    w < |sv| && Describes(written, sv[w]) && text <= MetadataText(written)
  }

  ghost predicate RecordUpTo(sv: Versions, p: nat, text: Bytes) {
    exists w: nat, written: Remote :: w <= p && RecordsVersion(sv, w, written, text)
  }

  /** The ".part" is a beginning of version p, which is no older than the version in the record. */
  ghost predicate PartFrom(sv: Versions, p: nat, f: Files) {
    && p < |sv|
    && Part in f && f[Part] <= sv[p].content
    && (Meta in f ==> RecordUpTo(sv, p, f[Meta]))
  }

  ghost predicate PartUpTo(sv: Versions, cur: nat, f: Files) {
    exists p: nat :: p <= cur && PartFrom(sv, p, f)
  }

  ghost predicate IsVersion(sv: Versions, cur: nat, b: Bytes) {
    exists v: nat :: v <= cur && v < |sv| && b == sv[v].content
  }

  /** What is true of the disk at every moment while the server has got as far as version cur. */
  ghost predicate Sound(sv: Versions, cur: nat, foreign: set<Bytes>, f: Files) {
    && cur < |sv|
    && (Meta in f ==> RecordUpTo(sv, cur, f[Meta]))
    && (Part in f ==> PartUpTo(sv, cur, f))
    && (Output in f ==> f[Output] in foreign || IsVersion(sv, cur, f[Output]))
    && (Backup in f ==> f[Backup] in foreign || IsVersion(sv, cur, f[Backup]))
  }

  ghost predicate SoundSince(sv: Versions, cur: nat, foreign: set<Bytes>, t: Trail, from: nat) {
    forall i | from <= i < |t| :: Sound(sv, cur, foreign, t[i])
  }

  /** Later continues t, and every state added is sound. */
  ghost predicate SoundlyContinues(sv: Versions, cur: nat, foreign: set<Bytes>, t: Trail, later: Trail) {
    t <= later && SoundSince(sv, cur, foreign, later, |t|) && Sound(sv, cur, foreign, Now(later))
  }

  lemma SoundIsMonotone(sv: Versions, cur: nat, later: nat, foreign: set<Bytes>, f: Files)
    requires Sound(sv, cur, foreign, f) && cur <= later < |sv|
    ensures Sound(sv, later, foreign, f)
  {
    hide RecordsVersion;
  }

  lemma SoundJoins(sv: Versions, cur: nat, later: nat, foreign: set<Bytes>, t: Trail, t1: Trail, t2: Trail)
    requires cur <= later < |sv|
    requires SoundlyContinues(sv, cur, foreign, t, t1) && SoundlyContinues(sv, later, foreign, t1, t2)
    ensures SoundlyContinues(sv, later, foreign, t, t2)
  {
    hide Sound;
    forall i | |t| <= i < |t2|
      ensures Sound(sv, later, foreign, t2[i])
    {
      if i < |t1| {
        assert t2[i] == t1[i];
        SoundIsMonotone(sv, cur, later, foreign, t1[i]);
      }
    }
  }

  lemma WithoutPartIsSound(sv: Versions, cur: nat, foreign: set<Bytes>, f: Files)
    requires Sound(sv, cur, foreign, f)
    ensures Sound(sv, cur, foreign, f - {Part})
  {
    hide RecordUpTo, IsVersion, PartUpTo;
  }

  lemma WithoutRecordIsSound(sv: Versions, cur: nat, foreign: set<Bytes>, f: Files)
    requires Sound(sv, cur, foreign, f)
    ensures Sound(sv, cur, foreign, f - {Meta})
  {
    hide RecordUpTo, IsVersion;
    if Part in f {
      var p: nat :| p <= cur && PartFrom(sv, p, f);
      assert PartFrom(sv, p, f - {Meta});
    }
  }

  /** Removing partial state keeps the disk sound whichever of its files stays behind. */
  lemma RemovalIsSound(sv: Versions, cur: nat, foreign: set<Bytes>, t: Trail, kept: Kept)
    requires Sound(sv, cur, foreign, Now(t))
    ensures SoundlyContinues(sv, cur, foreign, t, PartialRemoved(t, kept))
  {
    hide Sound;
    WithoutPartIsSound(sv, cur, foreign, Now(t));
    WithoutRecordIsSound(sv, cur, foreign, Now(t));
    WithoutRecordIsSound(sv, cur, foreign, Now(t) - {Part});
  }

  lemma UnchangedIsSound(sv: Versions, cur: nat, foreign: set<Bytes>, t: Trail)
    requires Sound(sv, cur, foreign, Now(t))
    ensures SoundlyContinues(sv, cur, foreign, t, t)
  {
  }

  // ----- a matched record names the version that is being served

  lemma ValidatorsNameVersions(sv: Versions, i: nat, j: nat, validator: string)
    requires NeverReusesValidators(sv) && i < |sv| && j < |sv|
    requires validator in Validators(sv[i]) && validator in Validators(sv[j])
    ensures i == j
  {
    hide Validators;
  }

  /** Whatever a possibly torn record matches is the version it was written for. */
  lemma MatchedRecordIsVersion(sv: Versions, w: nat, written: Remote, text: Bytes, remote: Remote, h: nat)
    requires NeverReusesValidators(sv) && RecordsVersion(sv, w, written, text)
    requires h < |sv| && Describes(remote, sv[h])
    requires Load(text).Some? && Matches(Load(text).value, remote)
    ensures w == h
  {
    hide Load, MetadataText;
    TornMetadataIsHarmless(written, text, remote);
    var shared :=
      if IsNonBlank(remote.etag) then Trim(remote.etag.value) else Trim(remote.lastModified.value);
    TrimmedIsFixed(shared);
    assert shared in Validators(sv[h]);
    assert shared in Validators(sv[w]);
    ValidatorsNameVersions(sv, w, h, shared);
  }

  /** A plan that keeps the ".part" keeps a beginning of exactly the version HEAD described. */
  lemma KeptPartIsCurrent(sv: Versions, cur: nat, h: nat, foreign: set<Bytes>, resume: bool, f: Files, remote: Remote)
    requires NeverReusesValidators(sv) && Sound(sv, cur, foreign, f)
    requires cur <= h < |sv| && Describes(remote, sv[h])
    requires !Decide(resume, f, remote).Fresh?
    ensures PartFrom(sv, h, f)
  {
    hide Load, Matches, HasIdentity, IsValidFile, ChooseIfRange, RecordsVersion, Describes, NeverReusesValidators;
    var p: nat :| p <= cur && PartFrom(sv, p, f);
    var w: nat, written: Remote :| w <= p && RecordsVersion(sv, w, written, f[Meta]);
    MatchedRecordIsVersion(sv, w, written, f[Meta], remote, h);
  }

  // ----- writing the record

  /** No ".part", or one from version h: the states in which a record for version h may be written. */
  ghost predicate ReadyFor(sv: Versions, h: nat, foreign: set<Bytes>, f: Files) {
    Sound(sv, h, foreign, f) && (Part in f ==> PartFrom(sv, h, f))
  }

  lemma RecordedIsReady(sv: Versions, h: nat, foreign: set<Bytes>, f: Files, remote: Remote, text: Bytes)
    requires ReadyFor(sv, h, foreign, f) && Describes(remote, sv[h]) && text <= MetadataText(remote)
    ensures ReadyFor(sv, h, foreign, f[Meta := text])
  {
    hide Describes, MetadataText, IsVersion;
    var g := f[Meta := text];
    assert RecordsVersion(sv, h, remote, text);
    if Part in g {
      assert PartFrom(sv, h, g);
    }
  }

  lemma MetadataWriteIsSound(sv: Versions, h: nat, foreign: set<Bytes>, t: Trail, remote: Remote, fault: MetaFault)
    requires ReadyFor(sv, h, foreign, Now(t)) && Describes(remote, sv[h])
    ensures var w := MetadataWritten(t, remote, fault).0;
            SoundlyContinues(sv, h, foreign, t, w) && ReadyFor(sv, h, foreign, Now(w))
  {
    hide Describes, MetadataText, RecordText, Sound, PartFrom;
    var f, text, w := Now(t), RecordText(remote, fault), MetadataWritten(t, remote, fault).0;
    if !fault.MetaOpenThrows? {
      RecordedIsReady(sv, h, foreign, f, remote, "");
      forall i | |t| < i < |w|
        ensures ReadyFor(sv, h, foreign, w[i])
      {
        var reached := text[..i - |t|];
        assert "" + reached == reached && f[Meta := ""][Meta := reached] == f[Meta := reached];
        RecordedIsReady(sv, h, foreign, f, remote, reached);
      }
      assert "" + text == text && f[Meta := ""][Meta := text] == f[Meta := text];
      RecordedIsReady(sv, h, foreign, f, remote, text);
    }
  }

  // ----- the transfer

  /** Growing a ".part" within version g, with the record left alone, keeps the disk sound. */
  lemma GrownIsSound(
    sv: Versions, h: nat, g: nat, foreign: set<Bytes>, base: Files, f: Files, kept: Bytes, whole: Bytes)
    requires Sound(sv, h, foreign, base) && h <= g < |sv|
    requires Reachable(f, base, kept, whole)
    requires Grown(f, base, kept, whole) ==> whole <= sv[g].content
    ensures Sound(sv, g, foreign, f)
  {
    hide RecordsVersion;
    SoundIsMonotone(sv, h, g, foreign, base);
    if Grown(f, base, kept, whole) {
      forall s: Slot | s != Part
        ensures (s in f <==> s in base) && (s in f ==> f[s] == base[s])
      {
        assert s in f - {Part} <==> s in base - {Part};
      }
      assert PartFrom(sv, g, f);
    }
  }

  /** The planned start and validator, as they are when the transfer begins. */
  ghost predicate PlannedFor(f: Files, remote: Remote, p: Plan) {
    && !p.Promote?
    && (p.Resume? ==>
          && Part in f && |f[Part]| == p.start
          && IsNonBlank(p.ifRange) && (p.ifRange == remote.etag || p.ifRange == remote.lastModified)
          && (remote.length.Some? ==> p.start < remote.length.value))
  }

  /** What is left on disk when a transfer begins; a fresh one may find bytes that could not be removed. */
  ghost predicate ReadyToStream(sv: Versions, h: nat, foreign: set<Bytes>, f: Files, p: Plan) {
    Sound(sv, h, foreign, f) && (p.Resume? ==> PartFrom(sv, h, f))
  }

  lemma SharedValidatorIsSameVersion(sv: Versions, h: nat, g: nat, ifRange: Option<string>)
    requires NeverReusesValidators(sv) && h <= g < |sv|
    requires IsNonBlank(ifRange) && (ifRange == sv[h].etag || ifRange == sv[h].lastModified)
    requires Trim(ifRange.value) in Validators(sv[g])
    ensures h == g
  {
    ValidatorsNameVersions(sv, h, g, Trim(ifRange.value));
  }

  /** A resumed answer that is let through continues the very version the ".part" came from. */
  lemma ResumedAnswerFits(sv: Versions, h: nat, g: nat, f: Files, remote: Remote, p: Plan, ex: Exchange)
    requires NeverReusesValidators(sv) && h <= g < |sv| && Describes(remote, sv[h])
    requires PlannedFor(f, remote, p) && (p.Resume? ==> PartFrom(sv, h, f))
    requires TruthfulGet(sv[g], RequestFor(p), ex)
    requires ex.response.status == 206
    requires p.Resume? && CheckResumedRange(ex.response, remote.length, p.start).Valid?
    ensures h == g && f[Part] + Body(ex.chunks) <= sv[g].content
    ensures ExpectedTotal(Returned(ex), remote.length, p.start) == Some(|sv[g].content|)
  {
    hide ParseContentRange, CheckResumedRange, ExpectedTotal, Validators, RecordUpTo, NeverReusesValidators;
    TrailersDoNotMatter(ex, remote.length, p.start);
    SharedValidatorIsSameVersion(sv, h, g, p.ifRange);
    var range := CheckResumedRange(ex.response, remote.length, p.start).range;
    ValidIffSafeAnswer(ex.response, remote.length, p.start, range);
    ExpectedTotalOfValidRange(ex.response, remote.length, p.start, range);
    PrefixContinues(f[Part], Body(ex.chunks), sv[g].content, range.end + 1);
  }

  lemma PrefixContinues(a: Bytes, b: Bytes, content: Bytes, end: nat)
    requires a <= content && |a| <= end <= |content| && b <= content[|a|..end]
    ensures a + b <= content
  {
  }

  /** Everything that reaches ".part" in a transfer is a beginning of the version that answered. */
  lemma TransferIsSound(
    sv: Versions, h: nat, g: nat, foreign: set<Bytes>, t: Trail, remote: Remote, p: Plan, ex: Exchange)
    requires NeverReusesValidators(sv) && h <= g < |sv| && Describes(remote, sv[h])
    requires ReadyToStream(sv, h, foreign, Now(t), p) && PlannedFor(Now(t), remote, p)
    requires TruthfulGet(sv[g], RequestFor(p), ex)
    ensures var perf := Perform(t, JobFor(p, remote), ex);
            SoundlyContinues(sv, g, foreign, t, Closed(perf.trail, perf.sink, ex.flushLoss).0)
  {
    hide Perform, Closed, CheckResumedRange, Sound, Describes, TruthfulGet, Validators, NeverReusesValidators,
      PartFrom, Grown, Reachable, IsNonBlank;
    var job := JobFor(p, remote);
    TransferOutcome(t, job, ex);
    var perf := Perform(t, job, ex);
    var c := Closed(perf.trail, perf.sink, ex.flushLoss).0;
    var base, kept := Now(t), KeptPrefix(job, ex.response, Now(t));
    var whole := kept + Landing(job, ex);
    SoundIsMonotone(sv, h, g, foreign, base);
    if !LeavesFileAlone(job, ex.response) {
      if Appends(job, ex.response) {
        ResumedAnswerFits(sv, h, g, base, remote, p, ex);
      } else {
        FreshRequestIsWhole(p, ex, sv[g]);
        assert whole == Body(ex.chunks);
      }
      forall f: Files | Reachable(f, base, kept, whole)
        ensures Sound(sv, g, foreign, f)
      {
        GrownIsSound(sv, h, g, foreign, base, f, kept, whole);
      }
    }
  }

  /** An answer below 400 that is not appended carries the version from its first byte. */
  lemma FreshRequestIsWhole(p: Plan, ex: Exchange, v: Version)
    requires !p.Promote? && TruthfulGet(v, RequestFor(p), ex)
    requires ex.response.status < 400 && !(p.Resume? && ex.response.status == 206)
    ensures ex.response.status != 206 && Body(ex.chunks) <= v.content
  {
    hide TruthfulRange, Validators;
  }

  lemma WholeAnswerSize(p: Plan, remote: Remote, ex: Exchange, v: Version)
    requires TruthfulGet(v, RequestFor(p), ex) && ex.code == CURLE_OK
    requires ex.response.status < 400 && ex.response.status != 206
    ensures ExpectedTotal(Returned(ex), remote.length, JobFor(p, remote).start) == Some(|v.content|)
  {
    hide ParseUint, Validators, ParseContentRangeTotal, TruthfulRange;
    TrailersDoNotMatter(ex, remote.length, JobFor(p, remote).start);
  }

  /** A stream that accepts has left exactly the version that answered in ".part". */
  lemma AcceptedPartIsVersion(
    sv: Versions, h: nat, g: nat, foreign: set<Bytes>, t: Trail, remote: Remote, p: Plan, ex: Exchange)
    requires NeverReusesValidators(sv) && h <= g < |sv| && Describes(remote, sv[h])
    requires ReadyToStream(sv, h, foreign, Now(t), p) && PlannedFor(Now(t), remote, p)
    requires TruthfulGet(sv[g], RequestFor(p), ex)
    ensures var s := Stream(t, remote, JobFor(p, remote), ex);
            s.outcome.Accepted? ==> Part in Now(s.trail) && Now(s.trail)[Part] == sv[g].content
  {
    hide Perform, Closed, CheckResumedRange, Sound, Describes, TruthfulGet, Validators, NeverReusesValidators,
      ExpectedTotal, HasSignature, IsNonBlank;
    var job := JobFor(p, remote);
    var s := Stream(t, remote, job, ex);
    if s.outcome.Accepted? {
      TransferOutcome(t, job, ex);
      if ex.response.status == 416 {
        if p.Resume? {
          RefusedStream(t, remote, p, ex);
        }
      } else if Appends(job, ex.response) {
        AnswersBelow400AreDescribed(sv[g], RequestFor(p), ex);
        TrailersDoNotMatter(ex, remote.length, job.start);
        ResumedAnswerFits(sv, h, g, Now(t), remote, p, ex);
      } else {
        FreshRequestIsWhole(p, ex, sv[g]);
        WholeAnswerSize(p, remote, ex, sv[g]);
        assert Now(s.trail)[Part] == Body(ex.chunks);
      }
    }
  }

  lemma AnswersBelow400AreDescribed(v: Version, request: Request, ex: Exchange)
    requires TruthfulGet(v, request, ex) && ex.response.status < 400
    ensures DescribedByHeaders(ex)
  {
  }

  lemma StreamIsSound(
    sv: Versions, h: nat, g: nat, foreign: set<Bytes>, t: Trail, remote: Remote, p: Plan, ex: Exchange)
    requires NeverReusesValidators(sv) && h <= g < |sv| && Describes(remote, sv[h])
    requires ReadyToStream(sv, h, foreign, Now(t), p) && PlannedFor(Now(t), remote, p)
    requires TruthfulGet(sv[g], RequestFor(p), ex)
    ensures SoundlyContinues(sv, g, foreign, t, Stream(t, remote, JobFor(p, remote), ex).trail)
  {
    hide Perform, Closed, Sound, TruthfulGet, NeverReusesValidators, Describes, ReadyToStream, PlannedFor, IsValidFile,
      ExpectedTotal, RetryAfterSeconds;
    var job := JobFor(p, remote);
    var perf := Perform(t, job, ex);
    var c := Closed(perf.trail, perf.sink, ex.flushLoss).0;
    TransferIsSound(sv, h, g, foreign, t, remote, p, ex);
    UnchangedIsSound(sv, g, foreign, c);
    RemovalIsSound(sv, g, foreign, c, ex.refused);
    SoundJoins(sv, g, g, foreign, t, c, PartialRemoved(c, ex.refused));
  }

  // ----- the replacement

  /** What a replacement does to the four files, in every state. */
  ghost predicate Rearranged(f: Files, base: Files)
    requires Part in base
  {
    && (Meta in f <==> Meta in base) && (Meta in f ==> f[Meta] == base[Meta])
    && (Part in f ==> f[Part] == base[Part])
    && (forall s | s in {Output, Backup} && s in f ::
          || f[s] == base[Part]
          || (Output in base && f[s] == base[Output])
          || (Backup in base && f[s] == base[Backup]))
  }

  lemma ReplacementRearranges(u: Trail, fault: Fault)
    requires Part in Now(u)
    ensures var r := Replaced(u, fault).0;
            u <= r && forall i | |u| <= i < |r| :: Rearranged(r[i], Now(u))
    ensures Rearranged(Now(Replaced(u, fault).0), Now(u))
  {
  }

  lemma RearrangedIsSound(sv: Versions, g: nat, foreign: set<Bytes>, base: Files, f: Files)
    requires Sound(sv, g, foreign, base) && Part in base && IsVersion(sv, g, base[Part]) && Rearranged(f, base)
    ensures Sound(sv, g, foreign, f)
  {
    hide RecordUpTo, IsVersion;
    if Part in f {
      var p: nat :| p <= g && PartFrom(sv, p, base);
      assert PartFrom(sv, p, f);
    }
  }

  lemma ReplacementIsSound(sv: Versions, g: nat, foreign: set<Bytes>, u: Trail, fault: Fault)
    requires Sound(sv, g, foreign, Now(u))
    requires Part in Now(u) && IsVersion(sv, g, Now(u)[Part])
    ensures SoundlyContinues(sv, g, foreign, u, Replaced(u, fault).0)
  {
    hide Sound, IsVersion, Replaced, Rearranged;
    var r := Replaced(u, fault).0;
    ReplacementRearranges(u, fault);
    forall f: Files | Rearranged(f, Now(u))
      ensures Sound(sv, g, foreign, f)
    {
      RearrangedIsSound(sv, g, foreign, Now(u), f);
    }
  }

  lemma FinishingIsSound(
    sv: Versions, g: nat, v: nat, foreign: set<Bytes>, u: Trail, env: Env, bytes: nat, resumed: bool,
    request: Option<Request>)
    requires Sound(sv, g, foreign, Now(u)) && g < |sv|
    requires v <= g && Part in Now(u) && Now(u)[Part] == sv[v].content
    ensures var a := Finished(u, env, bytes, resumed, request);
            && SoundlyContinues(sv, g, foreign, u, a.trail)
            && (a.verdict.Downloaded? ==> Output in Now(a.trail) && Now(a.trail)[Output] == sv[v].content)
  {
    hide Sound, Replaced;
    var r := Replaced(u, env.replaceFault);
    ReplacementIsSound(sv, g, foreign, u, env.replaceFault);
    RemovalIsSound(sv, g, foreign, r.0, env.last);
    SoundJoins(sv, g, g, foreign, u, r.0, PartialRemoved(r.0, env.last));
    ReplacementOutput(u, env.replaceFault, env.last);
  }

  lemma ReplacementOutput(u: Trail, fault: Fault, kept: Kept)
    ensures var r := Replaced(u, fault);
            !r.1 ==> Part in Now(u) && Output in Now(PartialRemoved(r.0, kept))
                     && Now(PartialRemoved(r.0, kept))[Output] == Now(u)[Part]
  {
  }

  // ----- one attempt

  /** HEAD is answered at version h and the GET at version g, both truthfully. */
  ghost predicate Compliant(sv: Versions, h: nat, g: nat, cfg: Config, t: Trail, env: Env) {
    && h <= g < |sv|
    && TruthfulHead(sv[h], env.head)
    && (Attempted(cfg, t, env).request.Some? ==>
          TruthfulGet(sv[g], Attempted(cfg, t, env).request.value, env.exchange))
  }

  predicate WritesRecord(cfg: Config, remote: Remote, env: Env) {
    cfg.resume && HasIdentity(remote) && !env.metaFault.MetaOpenThrows?
  }

  /** The attempt discards a ".part", fails to remove it, and goes on to write a record beside it. */
  predicate RecordsBesideStale(cfg: Config, f: Files, env: Env) {
    var fetched := FetchMetadata(env.head);
    && fetched.Metadata?
    && !SkipsExisting(cfg, f, fetched.remote)
    && Decide(cfg.resume, f, fetched.remote) == Fresh(true)
    && Part in f && env.first.part
    && WritesRecord(cfg, fetched.remote, env)
  }

  /** If that happens, the bytes left behind are by chance a beginning of the version the record is written for. */
  ghost predicate RecordsOwnBytes(v: Version, cfg: Config, f: Files, env: Env) {
    RecordsBesideStale(cfg, f, env) ==> f[Part] <= v.content
  }

  ghost predicate AttemptKeepsIntegrity(sv: Versions, h: nat, g: nat, foreign: set<Bytes>, t: Trail, a: Attempt) {
    && h <= g < |sv|
    && SoundlyContinues(sv, g, foreign, t, a.trail)
    && (a.verdict.Downloaded? ==>
          Output in Now(a.trail) && (Now(a.trail)[Output] == sv[h].content || Now(a.trail)[Output] == sv[g].content))
  }

  lemma PlannedStates(
    sv: Versions, cur: nat, h: nat, foreign: set<Bytes>, cfg: Config, t: Trail, remote: Remote, env: Env)
    requires NeverReusesValidators(sv) && Sound(sv, cur, foreign, Now(t)) && cur <= h < |sv| && Describes(remote, sv[h])
    requires FetchMetadata(env.head) == Metadata(remote) && !SkipsExisting(cfg, Now(t), remote)
    requires RecordsOwnBytes(sv[h], cfg, Now(t), env)
    ensures var p := Decide(cfg.resume, Now(t), remote);
            var t1 := Planned(t, p, env.first);
            && SoundlyContinues(sv, h, foreign, t, t1) && ReadyToStream(sv, h, foreign, Now(t1), p)
            && (WritesRecord(cfg, remote, env) ==> ReadyFor(sv, h, foreign, Now(t1)))
            && (!p.Promote? ==> PlannedFor(Now(t1), remote, p))
            && (p.Promote? ==> t1 == t && Part in Now(t) && Now(t)[Part] == sv[h].content)
  {
    hide Sound, NeverReusesValidators, Load, Matches, HasIdentity, ChooseIfRange, IsNonBlank, PartFrom, SkipsExisting,
      FetchMetadata;
    var p := Decide(cfg.resume, Now(t), remote);
    SoundIsMonotone(sv, cur, h, foreign, Now(t));
    RemovalIsSound(sv, h, foreign, t, env.first);
    UnchangedIsSound(sv, h, foreign, t);
    PlansAreConditional(cfg.resume, Now(t), remote);
    if !p.Fresh? {
      KeptPartIsCurrent(sv, cur, h, foreign, cfg.resume, Now(t), remote);
      if p.Promote? {
        PartOfWholeLength(sv, h, Now(t));
      }
    } else {
      RemovalIsQuiet(t, env.first);
      if WritesRecord(cfg, remote, env) && Part in Now(Planned(t, p, env.first)) {
        OwnBytesArePart(sv, h, foreign, Now(Planned(t, p, env.first)));
      }
    }
  }

  lemma OwnBytesArePart(sv: Versions, h: nat, foreign: set<Bytes>, f: Files)
    requires Sound(sv, h, foreign, f) && Part in f && f[Part] <= sv[h].content
    ensures PartFrom(sv, h, f)
  {
    hide RecordUpTo;
  }

  lemma PartOfWholeLength(sv: Versions, h: nat, f: Files)
    requires PartFrom(sv, h, f) && |f[Part]| == |sv[h].content|
    ensures f[Part] == sv[h].content
  {
  }

  /** The record for version h is written, if it is, and leaves the disk ready for the transfer. */
  lemma RecordingIsSound(
    sv: Versions, h: nat, foreign: set<Bytes>, cfg: Config, t: Trail, remote: Remote, p: Plan, env: Env)
    requires h < |sv| && Describes(remote, sv[h])
    requires ReadyToStream(sv, h, foreign, Now(t), p) && PlannedFor(Now(t), remote, p)
    requires WritesRecord(cfg, remote, env) ==> ReadyFor(sv, h, foreign, Now(t))
    ensures var w :=
              if cfg.resume && HasIdentity(remote) then MetadataWritten(t, remote, env.metaFault) else (t, false);
            && SoundlyContinues(sv, h, foreign, t, w.0)
            && ReadyToStream(sv, h, foreign, Now(w.0), p) && PlannedFor(Now(w.0), remote, p)
  {
    hide Sound, PartFrom, Describes, RecordText, HasIdentity, IsNonBlank;
    UnchangedIsSound(sv, h, foreign, t);
    MetadataWriteIsQuiet(t, remote, env.metaFault);
    if WritesRecord(cfg, remote, env) {
      MetadataWriteIsSound(sv, h, foreign, t, remote, env.metaFault);
    }
  }

  lemma TransferredIsSound(
    sv: Versions, h: nat, g: nat, foreign: set<Bytes>, cfg: Config, t: Trail, remote: Remote, p: Plan, env: Env)
    requires NeverReusesValidators(sv) && h <= g < |sv| && Describes(remote, sv[h])
    requires ReadyToStream(sv, h, foreign, Now(t), p) && PlannedFor(Now(t), remote, p)
    requires WritesRecord(cfg, remote, env) ==> ReadyFor(sv, h, foreign, Now(t))
    requires Transferred(cfg, t, remote, p, env).request.Some? ==> TruthfulGet(sv[g], RequestFor(p), env.exchange)
    ensures AttemptKeepsIntegrity(sv, h, g, foreign, t, Transferred(cfg, t, remote, p, env))
  {
    hide Sound, NeverReusesValidators, MetadataWritten, Stream, Finished, TruthfulGet, Describes, PartFrom, ReadyFor,
      HasIdentity;
    var w := if cfg.resume && HasIdentity(remote) then MetadataWritten(t, remote, env.metaFault) else (t, false);
    RecordingIsSound(sv, h, foreign, cfg, t, remote, p, env);
    SoundIsMonotone(sv, h, g, foreign, Now(w.0));
    UnchangedIsSound(sv, g, foreign, w.0);
    SoundJoins(sv, h, g, foreign, t, w.0, w.0);
    if !w.1 {
      var s := Stream(w.0, remote, JobFor(p, remote), env.exchange);
      FinishedRequest(s.trail, env, s.outcome, Some(RequestFor(p)));
      StreamIsSound(sv, h, g, foreign, w.0, remote, p, env.exchange);
      SoundJoins(sv, h, g, foreign, t, w.0, s.trail);
      AcceptedPartIsVersion(sv, h, g, foreign, w.0, remote, p, env.exchange);
      if s.outcome.Accepted? {
        var bytes, resumed, request := s.outcome.bytes, s.outcome.resumed, Some(RequestFor(p));
        FinishingIsSound(sv, g, g, foreign, s.trail, env, bytes, resumed, request);
        SoundJoins(sv, g, g, foreign, t, s.trail, Finished(s.trail, env, bytes, resumed, request).trail);
      }
    }
  }

  lemma FinishedRequest(t: Trail, env: Env, outcome: StreamOutcome, request: Option<Request>)
    ensures outcome.Accepted? ==> Finished(t, env, outcome.bytes, outcome.resumed, request).request == request
  {
  }

  lemma TriedIsSound(
    sv: Versions, cur: nat, h: nat, g: nat, foreign: set<Bytes>, cfg: Config, t: Trail, env: Env)
    requires NeverReusesValidators(sv) && Sound(sv, cur, foreign, Now(t)) && cur <= h <= g < |sv|
    requires TruthfulHead(sv[h], env.head) && RecordsOwnBytes(sv[h], cfg, Now(t), env)
    requires var r := Tried(cfg, t, env).request; r.Some? ==> TruthfulGet(sv[g], r.value, env.exchange)
    ensures AttemptKeepsIntegrity(sv, h, g, foreign, t, Tried(cfg, t, env))
  {
    hide Sound, NeverReusesValidators, Transferred, Finished, TruthfulGet, Describes, SkipsExisting, FetchMetadata,
      Decide, Planned, RecordsOwnBytes, ReadyToStream, ReadyFor, PlannedFor;
    var a := Tried(cfg, t, env);
    SoundIsMonotone(sv, cur, g, foreign, Now(t));
    match FetchMetadata(env.head)
    case HeadRejected(_) =>
      UnchangedIsSound(sv, g, foreign, t);
    case Metadata(remote) =>
      if SkipsExisting(cfg, Now(t), remote) {
        RemovalIsSound(sv, g, foreign, t, env.first);
      } else {
        var p := Decide(cfg.resume, Now(t), remote);
        PlannedStates(sv, cur, h, foreign, cfg, t, remote, env);
        if p.Promote? {
          FinishingIsSound(sv, g, h, foreign, t, env, 0, true, None);
        } else {
          var t1 := Planned(t, p, env.first);
          TransferredRequest(cfg, t1, remote, p, env);
          TransferredIsSound(sv, h, g, foreign, cfg, t1, remote, p, env);
          SoundJoins(sv, h, g, foreign, t, t1, a.trail);
        }
      }
  }

  lemma TransferredRequest(cfg: Config, t: Trail, remote: Remote, p: Plan, env: Env)
    ensures var r := Transferred(cfg, t, remote, p, env).request; r.Some? ==> r.value == RequestFor(p)
  {
    hide MetadataWritten, Stream, Replaced, RequestFor;
  }

  /** One attempt against a compliant server: every state is sound, and a download is one whole version. */
  lemma AttemptIsSound(
    sv: Versions, cur: nat, h: nat, g: nat, foreign: set<Bytes>, cfg: Config, t: Trail, env: Env)
    requires NeverReusesValidators(sv) && Sound(sv, cur, foreign, Now(t)) && cur <= h
    requires Compliant(sv, h, g, cfg, t, env) && RecordsOwnBytes(sv[h], cfg, Now(t), env)
    ensures AttemptKeepsIntegrity(sv, h, g, foreign, t, Attempted(cfg, t, env))
  {
    hide Sound, NeverReusesValidators, Tried, TruthfulHead, TruthfulGet, RecordsOwnBytes;
    var a := Tried(cfg, t, env);
    TriedIsSound(sv, cur, h, g, foreign, cfg, t, env);
    RemovalIsSound(sv, g, foreign, a.trail, env.last);
    SoundJoins(sv, g, g, foreign, t, a.trail, PartialRemoved(a.trail, env.last));
  }
}
