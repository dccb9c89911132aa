/**
 What integrity needs of removals that fail without a word, and what it does not promise of ".part": exact
 conditions and instances, all against servers that follow the rules.
 */
module Splice {
  import opened Wrappers
  import opened Text
  import opened Http
  import opened ContentRange
  import opened PartialMetadata
  import opened FileSystem
  import opened SafeReplace
  import opened Validation
  import opened Provider
  import opened Transfer
  import opened TransferProperties
  import opened Executor
  import opened ExecutorProperties
  import opened Acceptance
  import opened ResumeProperties
  import opened Resumption
  import opened Server
  import opened Integrity

  // ----- a record beside bytes that could not be removed

  lemma SharedRecordIsSameVersion(sv: Versions, h: nat, remote: Remote, w: nat, written: Remote)
    requires NeverReusesValidators(sv) && h < |sv| && w < |sv|
    requires Describes(remote, sv[h]) && Describes(written, sv[w]) && HasIdentity(remote)
    requires MetadataText(remote) <= MetadataText(written)
    ensures w == h
  {
    hide LoadFrom, MetadataText, NeverReusesValidators;
    MetadataRoundTrip(remote);
    assert MetadataText(remote) == MetadataText(written)[..|MetadataText(remote)|];
    TornRecord(written, |MetadataText(remote)|);
    var shared := if IsNonBlank(remote.etag) then Trim(remote.etag.value) else Trim(remote.lastModified.value);
    assert shared in Validators(sv[h]);
    assert shared in Validators(sv[w]);
    ValidatorsNameVersions(sv, w, h, shared);
  }

  /** The disk right after the record has been written beside bytes that could not be removed. */
  function Recorded(t: Trail, remote: Remote, env: Env): Trail {
    MetadataWritten(Planned(t, Fresh(true), env.first), remote, env.metaFault).0
  }

  /**
   The exact condition: beside a ".part" that could not be removed, a record that is written in full leaves a sound
   disk if and only if the bytes happen to be a beginning of the version that the record names.
   */
  lemma StaleRecordIsSoundIff(sv: Versions, cur: nat, h: nat, foreign: set<Bytes>, cfg: Config, t: Trail, env: Env)
    requires NeverReusesValidators(sv) && Sound(sv, cur, foreign, Now(t)) && cur <= h < |sv|
    requires TruthfulHead(sv[h], env.head) && RecordsBesideStale(cfg, Now(t), env) && env.metaFault.MetaWritten?
    ensures Part in Now(t)
    ensures Sound(sv, h, foreign, Now(Recorded(t, FetchMetadata(env.head).remote, env))) <==>
            Now(t)[Part] <= sv[h].content
  {
    hide FetchMetadata, NeverReusesValidators, Sound, SkipsExisting, Decide, HasIdentity, Describes, MetadataText;
    var remote := FetchMetadata(env.head).remote;
    var planned := Planned(t, Fresh(true), env.first);
    SoundIsMonotone(sv, cur, h, foreign, Now(t));
    RemovalIsSound(sv, h, foreign, t, env.first);
    RemovalIsQuiet(t, env.first);
    RecordIsRewritten(planned, remote, env.metaFault);
    if Now(t)[Part] <= sv[h].content {
      OwnBytesArePart(sv, h, foreign, Now(planned));
      RecordedIsReady(sv, h, foreign, Now(planned), remote, MetadataText(remote));
    } else if Sound(sv, h, foreign, Now(Recorded(t, remote, env))) {
      SoundRecordNamesPart(sv, h, foreign, Now(Recorded(t, remote, env)), remote);
      assert false;
    }
  }

  lemma SoundRecordNamesPart(sv: Versions, h: nat, foreign: set<Bytes>, f: Files, remote: Remote)
    requires NeverReusesValidators(sv) && h < |sv| && Describes(remote, sv[h]) && HasIdentity(remote)
    requires Sound(sv, h, foreign, f) && Part in f && Meta in f && f[Meta] == MetadataText(remote)
    ensures f[Part] <= sv[h].content
  {
    hide NeverReusesValidators, Describes, HasIdentity, MetadataText;
    var p: nat :| p <= h && PartFrom(sv, p, f);
    var w: nat, written: Remote :| w <= p && RecordsVersion(sv, w, written, f[Meta]);
    SharedRecordIsSameVersion(sv, h, remote, w, written);
  }

  /** That disk is one the attempt passes through, so a crash can leave it behind. */
  lemma RecordedStateIsReached(cfg: Config, t: Trail, env: Env)
    requires RecordsBesideStale(cfg, Now(t), env)
    ensures Recorded(t, FetchMetadata(env.head).remote, env) <= Attempted(cfg, t, env).trail
  {
    hide FetchMetadata, SkipsExisting, HasIdentity, Decide, MetadataWritten, Stream, Replaced, Planned;
    var remote, p := FetchMetadata(env.head).remote, Plan.Fresh(true);
    var w := MetadataWritten(Planned(t, p, env.first), remote, env.metaFault);
    var s := Stream(w.0, remote, JobFor(p, remote), env.exchange);
    StreamIsQuiet(w.0, remote, JobFor(p, remote), env.exchange);
    ReplacementOutputs(s.trail, env.replaceFault);
    RemovalKeepsOutput(Replaced(s.trail, env.replaceFault).0, env.last);
    RemovalKeepsOutput(Tried(cfg, t, env).trail, env.last);
  }

  // ----- two files spliced

  const STALE_BYTES: Bytes := HDF5_MAGIC + "a"
  const OLD_VERSION := Version(HDF5_MAGIC + "ab", Some("x"), None)
  const NEW_VERSION := Version(HDF5_MAGIC + "cde", Some("y"), None)
  const BOTH_VERSIONS: Versions := [OLD_VERSION, NEW_VERSION]

  const HEAD_OF_NEW := HeadAnswered(Response(200, map["etag" := "y"]))
  const NEW_REMOTE := Remote(None, None, Some("y"), None)

  const BUSY := Exchange(Response(503, map[]), [], map[], CURLE_OK, START_WORKS, START_WORKS, None, NOTHING_KEPT)
  const REST_OF_NEW := Exchange(
    Response(206, map["content-range" := PrintRange(9, 10, 11)]),
    [Chunk("de", None)], map[], CURLE_OK, START_WORKS, START_WORKS, None, NOTHING_KEPT)

  /** The old bytes cannot be removed, their record is replaced by that of the new file, and the server is busy. */
  const FIRST_TRY := Env(HEAD_OF_NEW, Kept(true, false), MetaWritten, BUSY, NO_FAULT, NOTHING_KEPT)
  const SECOND_TRY := Env(HEAD_OF_NEW, NOTHING_KEPT, MetaWritten, REST_OF_NEW, NO_FAULT, NOTHING_KEPT)

  const RETRYING := Config(true, false, 1)

  lemma LetterIsTrimmed(s: string)
    requires |s| == 1 && 'a' <= s[0] <= 'z'
    ensures IsTrimmed(s) && Trim(s) == s
  {
    TrimmedIsFixed(s);
  }

  lemma NewRemoteIsResumable()
    ensures FetchMetadata(HEAD_OF_NEW) == Metadata(NEW_REMOTE) && Resumable(NEW_REMOTE)
    ensures ChooseIfRange(NEW_REMOTE) == Some("y")
    ensures Describes(NEW_REMOTE, NEW_VERSION)
  {
    LetterIsTrimmed("y");
  }

  lemma VersionsAreDistinct()
    ensures NeverReusesValidators(BOTH_VERSIONS)
    ensures Validators(NEW_VERSION) == {"y"}
  {
    LetterIsTrimmed("x");
    LetterIsTrimmed("y");
  }

  lemma FirstTryLeavesWrongRecord()
    ensures var a := Attempted(RETRYING, [map[Part := STALE_BYTES]], FIRST_TRY);
            && a.verdict == Failed(HttpStatusError(503, None)) && a.request == Some(Request(0, None))
            && Now(a.trail) == map[Part := STALE_BYTES, Meta := MetadataText(NEW_REMOTE)]
    ensures RecordsBesideStale(RETRYING, map[Part := STALE_BYTES], FIRST_TRY)
  {
    hide Stream, MetadataText, FetchMetadata, HasIdentity, Appended;
    var t: Trail := [map[Part := STALE_BYTES]];
    NewRemoteIsResumable();
    var planned := Planned(t, Fresh(true), FIRST_TRY.first);
    assert Now(planned) == map[Part := STALE_BYTES];
    RecordIsRewritten(planned, NEW_REMOTE, FIRST_TRY.metaFault);
    ErrorStream(MetadataWritten(planned, NEW_REMOTE, FIRST_TRY.metaFault).0, NEW_REMOTE, Fresh(true), BUSY);
    assert RetryAfterSeconds(Returned(BUSY).headers) == None;
  }

  lemma SecondTrySplices(t: Trail)
    requires Now(t) == map[Part := STALE_BYTES, Meta := MetadataText(NEW_REMOTE)]
    ensures var a := Attempted(RETRYING, t, SECOND_TRY);
            && a.verdict == Downloaded(2, true) && a.request == Some(Request(9, Some("y")))
            && Output in Now(a.trail) && Now(a.trail)[Output] == STALE_BYTES + "de"
  {
    hide Attempted, MetadataText, FetchMetadata, HasIdentity, ChooseIfRange, IsCleanValidator, CheckResumedRange,
      ParseContentRange, PrintRange, ExpectedTotal, Decide;
    NewRemoteIsResumable();
    PlanResumes(Now(t), NEW_REMOTE);
    var p, job := Resume(9, Some("y")), Job(true, 9, None);
    var range := Range(9, 10, 11);
    assert REST_OF_NEW.chunks[1..] == [] && Body(REST_OF_NEW.chunks) == "de";
    assert Returned(REST_OF_NEW) == REST_OF_NEW.response;
    PrintedRangeParses(9, 10, 11);
    ValidIffSafeAnswer(REST_OF_NEW.response, None, 9, range);
    ExpectedTotalOfValidRange(REST_OF_NEW.response, None, 9, range);
    assert HasSignature(STALE_BYTES + "de");
    assert Acceptable(Now(t), NEW_REMOTE, job, REST_OF_NEW);
    ResumeDownloadsIff(RETRYING, t, SECOND_TRY, p);
    AttemptRequest(RETRYING, t, SECOND_TRY);
    DownloadOfResumeSends(RETRYING, t, SECOND_TRY, p);
  }

  lemma DownloadOfResumeSends(cfg: Config, t: Trail, env: Env, p: Plan)
    requires Streams(cfg, t, env, p) && p.Resume? && Attempted(cfg, t, env).verdict.Downloaded?
    ensures Attempted(cfg, t, env).request == Some(RequestFor(p))
  {
    hide Stream, MetadataWritten, FetchMetadata, Tried, SkipsExisting, Decide;
    ResumingAttempt(cfg, t, env, p);
  }

  /**
   The splice: from a sound disk, against a server that answers both attempts from the new version as it should,
   a run reports a download of bytes that are neither version, all because one removal failed without a word.
   */
  lemma FailedRemovalCanSplice()
    ensures var f: Files, envs := map[Part := STALE_BYTES], [FIRST_TRY, SECOND_TRY];
            var r := RunTarget(RETRYING, false, f, envs);
            && NeverReusesValidators(BOTH_VERSIONS) && Sound(BOTH_VERSIONS, 1, {}, f)
            && RecordsBesideStale(RETRYING, f, FIRST_TRY)
            && r.requests == [Request(0, None), Request(9, Some("y"))]
            && TruthfulHead(NEW_VERSION, HEAD_OF_NEW)
            && TruthfulGet(NEW_VERSION, Request(0, None), BUSY)
            && TruthfulGet(NEW_VERSION, Request(9, Some("y")), REST_OF_NEW)
            && r.result.status.DownloadedStatus?
            && Output in Now(r.trail)
            && Now(r.trail)[Output] != OLD_VERSION.content && Now(r.trail)[Output] != NEW_VERSION.content
  {
    hide Attempted, Validators, MetadataText, FetchMetadata, NeverReusesValidators, Sound, RecordsBesideStale,
      TruthfulGet, WaitAfter;
    var f: Files, envs := map[Part := STALE_BYTES], [FIRST_TRY, SECOND_TRY];
    VersionsAreDistinct();
    NewRemoteIsResumable();
    StaleBytesAreSound();
    FirstTryLeavesWrongRecord();
    RestIsTruthful();
    SpliceIsNeither();
    var a := Attempted(RETRYING, [f], FIRST_TRY);
    SecondTrySplices(a.trail);
    var b := Attempted(RETRYING, a.trail, SECOND_TRY);
    assert RunFrom(RETRYING, a.trail, envs, 2) == Run(b.trail, ResultOf(b.verdict, 2), Sent(b), []);
    assert Sent(a) + Sent(b) == [Request(0, None), Request(9, Some("y"))];
  }

  lemma SpliceIsNeither()
    ensures STALE_BYTES + "de" != OLD_VERSION.content && STALE_BYTES + "de" != NEW_VERSION.content
    ensures !(HDF5_MAGIC + "c" <= OLD_VERSION.content) && HDF5_MAGIC + "c" <= NEW_VERSION.content
  {
    assert (STALE_BYTES + "de")[8] == 'a' && NEW_VERSION.content[8] == 'c';
    assert (HDF5_MAGIC + "c")[8] == 'c' && OLD_VERSION.content[8] == 'a';
  }

  lemma StaleBytesAreSound()
    ensures Sound(BOTH_VERSIONS, 1, {}, map[Part := STALE_BYTES])
  {
    assert PartFrom(BOTH_VERSIONS, 0, map[Part := STALE_BYTES]);
  }

  lemma RestIsTruthful()
    ensures TruthfulGet(NEW_VERSION, Request(9, Some("y")), REST_OF_NEW)
    ensures TruthfulGet(NEW_VERSION, Request(0, None), BUSY)
  {
    hide ParseContentRange, PrintRange, Validators;
    VersionsAreDistinct();
    LetterIsTrimmed("y");
    PrintedRangeParses(9, 10, 11);
    assert REST_OF_NEW.chunks[1..] == [] && Body(REST_OF_NEW.chunks) == "de";
    assert NEW_VERSION.content[9..11] == "de";
  }

  // ----- the record may be older than the bytes

  const HEAD_OF_OLD := HeadAnswered(Response(200, map["etag" := "x"]))
  const OLD_REMOTE := Remote(None, None, Some("x"), None)
  const CURLE_PARTIAL_FILE := 18
  const CUT_NEW := Exchange(
    Response(200, map[]), [Chunk(HDF5_MAGIC + "c", None)], map[], CURLE_PARTIAL_FILE,
    START_WORKS, START_WORKS, None, NOTHING_KEPT)

  /** HEAD meets the old version, the GET the new one, and the transfer is cut. */
  const CHANGED_BETWEEN := Env(HEAD_OF_OLD, NOTHING_KEPT, MetaWritten, CUT_NEW, NO_FAULT, NOTHING_KEPT)

  /** Nothing fails and nobody breaks the rules: the record names the old version, the bytes are of the new one. */
  lemma RecordCanBeOlder()
    ensures var a := Attempted(RETRYING, [map[]], CHANGED_BETWEEN);
            && NeverReusesValidators(BOTH_VERSIONS)
            && Compliant(BOTH_VERSIONS, 0, 1, RETRYING, [map[]], CHANGED_BETWEEN)
            && Meta in Now(a.trail) && Now(a.trail)[Meta] == MetadataText(OLD_REMOTE)
            && Describes(OLD_REMOTE, OLD_VERSION)
            && Part in Now(a.trail) && Now(a.trail)[Part] == HDF5_MAGIC + "c"
            && !(Now(a.trail)[Part] <= OLD_VERSION.content) && Now(a.trail)[Part] <= NEW_VERSION.content
  {
    hide Stream, MetadataText, FetchMetadata, MetadataWritten, Attempted, StartWorks, Body, NeverReusesValidators,
      HasIdentity, TruthfulGet;
    VersionsAreDistinct();
    OldRemoteHasIdentity();
    var t: Trail, p := [map[]], Plan.Fresh(false);
    var u := MetadataWritten(t, OLD_REMOTE, CHANGED_BETWEEN.metaFault).0;
    RecordIsRewritten(t, OLD_REMOTE, CHANGED_BETWEEN.metaFault);
    StreamingAttempt(RETRYING, t, CHANGED_BETWEEN, p);
    CutAnswerIsTruthful();
    CutTransfer(u, p, OLD_REMOTE, CHANGED_BETWEEN);
    CutAttemptEnds(RETRYING, t, CHANGED_BETWEEN);
    SpliceIsNeither();
    RecordIsKept(Now(Stream(u, OLD_REMOTE, JobFor(p, OLD_REMOTE), CUT_NEW).trail), Now(u));
  }

  lemma OldRemoteHasIdentity()
    ensures FetchMetadata(HEAD_OF_OLD) == Metadata(OLD_REMOTE) && HasIdentity(OLD_REMOTE)
  {
    LetterIsTrimmed("x");
  }

  lemma CutAnswerIsTruthful()
    ensures TruthfulGet(NEW_VERSION, Request(0, None), CUT_NEW)
    ensures Body(CUT_NEW.chunks) == HDF5_MAGIC + "c"
    ensures StartWorks(JobFor(Fresh(false), OLD_REMOTE), CUT_NEW)
  {
    assert CUT_NEW.chunks[1..] == [];
  }

  lemma CutAttemptEnds(cfg: Config, t: Trail, env: Env)
    requires Tried(cfg, t, env).verdict.Failed? && Tried(cfg, t, env).verdict.error.NetworkError?
    ensures Attempted(cfg, t, env) == Tried(cfg, t, env)
  {
    hide Tried;
  }
}
