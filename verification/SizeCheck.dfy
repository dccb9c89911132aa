/**
 The size a finished download is checked against, over whole runs: the 64-bit sum of start and length never
 decides that a file is accepted, and is formed on a resume only if trailer fields hide the Content-Range.
 */
module SizeCheck {
  import opened Wrappers
  import opened Text
  import opened Http
  import opened ContentRange
  import opened PartialMetadata
  import opened FileSystem
  import opened Validation
  import opened Provider
  import opened Transfer
  import opened TransferProperties
  import opened Executor
  import opened ExecutorProperties
  import opened Acceptance
  import opened ResumeProperties

  /**
   An attempt that is accepted was checked against the size in unbounded arithmetic. One that fails on its size
   or payload was too, unless it resumed, was answered by 206 and had its range hidden by a trailer.
   */
  ghost predicate SizeIsExact(a: Attempt, env: Env) {
    var ex := env.exchange;
    a.request.Some? && ex.response.status < 400 && SizeWraps(Returned(ex), a.request.value.start) ==>
      && !a.verdict.Downloaded?
      && (a.verdict.Failed? && RemovesPartial(a.verdict.error) ==>
            a.verdict.error == IntegrityError && SendsRange(a.request.value) && TrailerHidesRange(ex))
  }

  lemma TransferredSizeIsExact(cfg: Config, t: Trail, remote: Remote, p: Plan, env: Env)
    requires p.Resume? ==> Part in Now(t) && |Now(t)[Part]| == p.start && p.start > 0
    ensures SizeIsExact(Transferred(cfg, t, remote, p, env), env)
  {
    hide MetadataWritten, Stream, SafeReplace.Replaced, SizeWraps, ParseContentRangeTotal;
    var w := if cfg.resume && HasIdentity(remote) then MetadataWritten(t, remote, env.metaFault) else (t, false);
    MetadataWriteIsQuiet(t, remote, env.metaFault);
    if env.exchange.response.status < 400 {
      StreamSizeIsExact(w.0, remote, p, env.exchange);
    }
  }

  lemma AttemptSizeIsExact(cfg: Config, t: Trail, env: Env)
    ensures SizeIsExact(Attempted(cfg, t, env), env)
  {
    hide Transferred, Finished, FetchMetadata, SkipsExisting, Decide, SizeWraps, TrailerHidesRange;
    match FetchMetadata(env.head)
    case HeadRejected(_) =>
    case Metadata(remote) =>
      var p := Decide(cfg.resume, Now(t), remote);
      PlanFacts(cfg.resume, Now(t), remote);
      PlansAreConditional(cfg.resume, Now(t), remote);
      if p.Promote? {
        PromotionSendsNothing(t, env);
      } else {
        TransferredSizeIsExact(cfg, Planned(t, p, env.first), remote, p, env);
      }
  }

  lemma PromotionSendsNothing(t: Trail, env: Env)
    ensures Finished(t, env, 0, true, None).request.None?
  {
  }

  /** The same of every attempt that a run makes. */
  ghost predicate EverySizeIsExact(cfg: Config, t: Trail, envs: seq<Env>, attempt: nat)
    requires 1 <= attempt <= TotalAttempts(cfg) <= |envs|
    decreases TotalAttempts(cfg) - attempt
  {
    var a := Attempted(cfg, t, envs[attempt - 1]);
    && SizeIsExact(a, envs[attempt - 1])
    && (Retries(cfg, a, attempt) ==> EverySizeIsExact(cfg, a.trail, envs, attempt + 1))
  }

  /** No 64-bit wrap decides anything in a run whose answers have no such trailer, and none is ever accepted. */
  lemma {:induction false} RunSizesAreExact(cfg: Config, t: Trail, envs: seq<Env>, attempt: nat)
    requires 1 <= attempt <= TotalAttempts(cfg) <= |envs|
    ensures EverySizeIsExact(cfg, t, envs, attempt)
    decreases TotalAttempts(cfg) - attempt
  {
    hide Attempted, SizeIsExact, IsRetryable;
    var a := Attempted(cfg, t, envs[attempt - 1]);
    AttemptSizeIsExact(cfg, t, envs[attempt - 1]);
    if Retries(cfg, a, attempt) {
      RunSizesAreExact(cfg, a.trail, envs, attempt + 1);
    }
  }

  // ----- the trailer is needed, and enough

  const WRAPPING := Exchange(
    Response(206, map["content-range" := PrintRange(8, 9, 10)]),
    [Chunk("ab", None)],
    map["content-range" := "", "content-length" := Decimal(UINT64_LIMIT - 2)],
    CURLE_OK, START_WORKS, START_WORKS, None, NOTHING_KEPT)

  /** All ten bytes have arrived, the trailers make the expected size six, and the file is refused. */
  lemma TrailerCanWrapSize(remote: Remote)
    requires remote.length.None? || remote.length == Some(10)
    ensures var s := Stream([EIGHT_BYTES], remote, Job(true, 8, remote.length), WRAPPING);
            s.outcome == Rejected(IntegrityError) && Now(s.trail) == map[Part := HDF5_MAGIC + "ab"]
    ensures SizeWraps(Returned(WRAPPING), 8) && ExpectedTotal(Returned(WRAPPING), remote.length, 8) == Some(6)
  {
    hide CheckResumedRange, ParseContentRange, PrintRange, Perform, ExpectedTotal, Decimal, ParseUint;
    var t: Trail, job := [EIGHT_BYTES], Job(true, 8, remote.length);
    assert WRAPPING.chunks[1..] == [] && Body(WRAPPING.chunks) == "ab";
    PrintedRangeParses(8, 9, 10);
    ValidIffSafeAnswer(WRAPPING.response, remote.length, 8, Range(8, 9, 10));
    PerformWorksIff(t, job, WRAPPING);
    TransferOutcome(t, job, WRAPPING);
    OnlyPart(Now(Perform(t, job, WRAPPING).trail), HDF5_MAGIC);
    ReturnedSizeWraps(remote.length);
  }

  lemma ReturnedSizeWraps(remoteLength: Option<uint64>)
    ensures SizeWraps(Returned(WRAPPING), 8) && ExpectedTotal(Returned(WRAPPING), remoteLength, 8) == Some(6)
  {
    hide Decimal, ParseUint, IsUnsatisfied;
    ParsePrintedUint(UINT64_LIMIT - 2);
    BlankGivesNoTotal();
  }

  lemma BlankGivesNoTotal()
    ensures ParseContentRangeTotal("") == None
  {
    assert Trim("") == "";
  }
}
