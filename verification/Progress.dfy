/**
 Whole runs against a server that resumes: however often the transfer is cut, every request starts where the
 bytes so far end, and together the answers send every byte of the file exactly once.
 */
module Progress {
  import opened Wrappers
  import opened Text
  import opened Http
  import opened ContentRange
  import opened PartialMetadata
  import opened FileSystem
  import opened SafeReplace
  import opened Validation
  import opened Provider
  import opened Transfer
  import opened TransferProperties
  import opened Executor
  import opened ExecutorProperties
  import opened ResumeProperties
  import opened Server
  import opened Convergence
  import opened Resumption

  /** The file and what HEAD says of it in every attempt. */
  ghost predicate Source(v: Version, remote: Remote) {
    && Resumable(remote) && Describes(remote, v) && remote.length == Some(|v.content|)
    && |v.content| >= 4 && HasSignature(v.content)
  }

  /** The answer to a request from `start` that stops at `end`: cut by the network, or complete. */
  ghost predicate ServesUpTo(v: Version, remote: Remote, start: nat, end: nat, env: Env) {
    var ex := env.exchange;
    && start <= end <= |v.content|
    && FetchMetadata(env.head) == Metadata(remote)
    && env.metaFault.MetaWritten? && env.replaceFault == NO_FAULT
    && !ex.start.openFails && ex.flushLoss.None? && WritesWork(ex.chunks) && DescribedByHeaders(ex)
    && (if start == 0 then AnnouncesWhole(v, ex) else AnnouncesRest(v, start, ex))
    && Body(ex.chunks) == v.content[start..end]
    && (if end < |v.content| then ex.code != CURLE_OK && IsRetryableCode(ex.code) else ex.code == CURLE_OK)
  }

  function Wanted(remote: Remote, start: nat): Request {
    if start == 0 then Request(0, None) else Request(start, ChooseIfRange(remote))
  }

  /** Nothing yet, or a beginning of the file together with its record. */
  ghost predicate HasReached(cfg: Config, f: Files, v: Version, remote: Remote, start: nat) {
    && start <= |v.content|
    && !SkipsExisting(cfg, f, remote)
    && if start == 0 then Part !in f else Waiting(cfg, f, remote, v.content[..start])
  }

  lemma PlanFromHere(cfg: Config, t: Trail, v: Version, remote: Remote, start: nat, env: Env) returns (p: Plan)
    requires cfg.resume && Source(v, remote) && start < |v.content|
    requires HasReached(cfg, Now(t), v, remote, start) && FetchMetadata(env.head) == Metadata(remote)
    ensures p == (if start == 0 then Fresh(false) else Resume(start, ChooseIfRange(remote)))
    ensures Streams(cfg, t, env, p) && RequestFor(p) == Wanted(remote, start)
    ensures p.Resume? ==> Part in Now(t) && Now(t)[Part] == v.content[..start]
  {
    hide FetchMetadata, SkipsExisting, MetadataText, ChooseIfRange, HasIdentity, HasSignature;
    p := if start == 0 then Fresh(false) else Resume(start, ChooseIfRange(remote));
    if start > 0 {
      PlanResumes(Now(t), remote);
    }
  }

  lemma AnswerIsLetThrough(v: Version, remote: Remote, start: nat, end: nat, env: Env, p: Plan)
    requires Source(v, remote) && ServesUpTo(v, remote, start, end, env) && start < |v.content|
    requires p == (if start == 0 then Fresh(false) else Resume(start, ChooseIfRange(remote)))
    ensures StartWorks(JobFor(p, remote), env.exchange)
    ensures ExpectedTotal(Returned(env.exchange), remote.length, start) == Some(|v.content|)
    ensures Appends(JobFor(p, remote), env.exchange.response) <==> start > 0
  {
    hide CheckResumedRange, ExpectedTotal, HasSignature, Resumable, Describes, PrintRange, Decimal, WritesWork,
      FetchMetadata, ChooseIfRange, Body;
    if start == 0 {
      WholeSize(v, remote.length, start, env.exchange);
    } else {
      RestIsAccepted(v, remote.length, start, env.exchange);
    }
  }

  lemma AnswerIsCut(t: Trail, v: Version, remote: Remote, start: nat, end: nat, env: Env, p: Plan)
    requires Source(v, remote) && ServesUpTo(v, remote, start, end, env) && start < |v.content| && end < |v.content|
    requires p == (if start == 0 then Fresh(false) else Resume(start, ChooseIfRange(remote)))
    requires p.Resume? ==> Part in Now(t) && Now(t)[Part] == v.content[..start]
    ensures Cut(p, remote, env) && Saved(p, remote, Now(t), env.exchange) == v.content[..end]
  {
    hide FetchMetadata, ChooseIfRange, HasSignature, StartWorks, WritesWork, Body, AnnouncesRest, AnnouncesWhole,
      DescribedByHeaders, Resumable, Describes;
    AnswerIsLetThrough(v, remote, start, end, env, p);
    assert v.content[..start] + v.content[start..end] == v.content[..end];
    assert "" + v.content[0..end] == v.content[..end];
  }

  /** One cut attempt: it asks for the rest, and afterwards the disk has reached the byte where it was cut. */
  lemma CutStep(cfg: Config, t: Trail, v: Version, remote: Remote, start: nat, end: nat, env: Env)
    requires cfg.resume && Source(v, remote) && HasReached(cfg, Now(t), v, remote, start)
    requires ServesUpTo(v, remote, start, end, env) && 0 < end < |v.content|
    ensures var a := Attempted(cfg, t, env);
            && a.request == Some(Wanted(remote, start))
            && a.verdict == Failed(NetworkError(env.exchange.code)) && IsRetryableCode(env.exchange.code)
            && HasReached(cfg, Now(a.trail), v, remote, end)
  {
    hide FetchMetadata, SkipsExisting, MetadataText, ChooseIfRange, HasIdentity, HasSignature, Attempted, StartWorks,
      WritesWork, Body, AnnouncesRest, AnnouncesWhole, DescribedByHeaders, IsCleanValidator, Describes, Cut, Saved,
      Streams;
    var p := PlanFromHere(cfg, t, v, remote, start, env);
    AnswerIsCut(t, v, remote, start, end, env, p);
    CutAttemptWaits(cfg, t, remote, env, p);
  }

  /** The last attempt: it asks for the rest, gets it, and puts the whole file in place. */
  lemma LastStep(cfg: Config, t: Trail, v: Version, remote: Remote, start: nat, env: Env)
    requires cfg.resume && Source(v, remote) && HasReached(cfg, Now(t), v, remote, start) && start < |v.content|
    requires ServesUpTo(v, remote, start, |v.content|, env)
    ensures var a := Attempted(cfg, t, env);
            && a.request == Some(Wanted(remote, start))
            && a.verdict == Downloaded(|v.content| - start, start > 0)
            && Output in Now(a.trail) && Now(a.trail)[Output] == v.content
  {
    hide FetchMetadata, SkipsExisting, MetadataText, ChooseIfRange, HasIdentity, HasSignature, Tried, StartWorks,
      WritesWork, Body, AnnouncesRest, AnnouncesWhole, DescribedByHeaders, IsCleanValidator, Describes, Stream,
      MetadataWritten, ExpectedTotal, Finished;
    var n := |v.content|;
    var p := PlanFromHere(cfg, t, v, remote, start, env);
    var t1 := Planned(t, p, env.first);
    var u := MetadataWritten(t1, remote, env.metaFault).0;
    AnswerIsLetThrough(v, remote, start, n, env, p);
    MetadataWriteIsQuiet(t1, remote, env.metaFault);
    assert v.content[..start] + v.content[start..n] == v.content;
    assert "" + v.content[0..n] == v.content;
    StreamAcceptsIff(u, remote, p, env.exchange);
    StreamingAttempt(cfg, t, env, p);
    var s := Stream(u, remote, JobFor(p, remote), env.exchange);
    FinishingIff(s.trail, env, s.outcome.bytes, s.outcome.resumed, Some(RequestFor(p)));
  }

  // ----- the run

  /** Where the attempts of the run stop: after some byte, then nowhere before that, and in the end at the last byte. */
  ghost predicate CutPoints(v: Version, cuts: seq<nat>) {
    && |cuts| >= 2 && cuts[0] == 0 < cuts[1] && cuts[|cuts| - 1] == |v.content|
    && (forall k | 0 <= k < |cuts| - 1 :: cuts[k] <= cuts[k + 1] && cuts[k] < |v.content|)
  }

  ghost predicate ServedInPieces(v: Version, remote: Remote, envs: seq<Env>, cuts: seq<nat>) {
    && |cuts| - 1 <= |envs|
    && (forall k | 0 <= k < |cuts| - 1 :: ServesUpTo(v, remote, cuts[k], cuts[k + 1], envs[k]))
  }

  function RequestsFrom(remote: Remote, cuts: seq<nat>, k: nat): seq<Request>
    decreases |cuts| - k
  {
    if k + 1 >= |cuts| then [] else [Wanted(remote, cuts[k])] + RequestsFrom(remote, cuts, k + 1)
  }

  lemma {:induction false} RunFetchesTheRest(
    cfg: Config, t: Trail, v: Version, remote: Remote, envs: seq<Env>, cuts: seq<nat>, k: nat)
    requires cfg.resume && Source(v, remote) && CutPoints(v, cuts) && ServedInPieces(v, remote, envs, cuts)
    requires k + 1 < |cuts| <= TotalAttempts(cfg) + 1 <= |envs| + 1
    requires HasReached(cfg, Now(t), v, remote, cuts[k])
    ensures var r := RunFrom(cfg, t, envs, k + 1);
            && r.requests == RequestsFrom(remote, cuts, k)
            && r.result.status.DownloadedStatus? && r.result.attempts == |cuts| - 1
            && r.result.bytes == |v.content| - cuts[|cuts| - 2] && r.result.resumed == (cuts[|cuts| - 2] > 0)
            && Output in Now(r.trail) && Now(r.trail)[Output] == v.content
    decreases |cuts| - k
  {
    hide Attempted, HasReached, Source, ServesUpTo, WaitAfter, Wanted;
    var env := envs[k];
    var a := Attempted(cfg, t, env);
    assert ServesUpTo(v, remote, cuts[k], cuts[k + 1], env);
    CutPointsAreOrdered(v, cuts, k);
    if k + 2 < |cuts| {
      CutStep(cfg, t, v, remote, cuts[k], cuts[k + 1], env);
      assert Retries(cfg, a, k + 1);
      RunFetchesTheRest(cfg, a.trail, v, remote, envs, cuts, k + 1);
    } else {
      LastStep(cfg, t, v, remote, cuts[k], env);
      assert RequestsFrom(remote, cuts, k + 1) == [];
    }
  }

  lemma CutPointsAreOrdered(v: Version, cuts: seq<nat>, k: nat)
    requires CutPoints(v, cuts) && k + 1 < |cuts|
    ensures cuts[k] < |v.content|
    ensures k + 2 < |cuts| ==> 0 < cuts[k + 1] < |v.content|
    ensures k + 2 == |cuts| ==> cuts[k + 1] == |v.content|
  {
    if 0 < k {
      CutPointsAreOrdered(v, cuts, k - 1);
    }
  }

  function Fetched(envs: seq<Env>): Bytes {
    if envs == [] then "" else Body(envs[0].exchange.chunks) + Fetched(envs[1..])
  }

  lemma {:induction false} PiecesAreTheRest(v: Version, remote: Remote, envs: seq<Env>, cuts: seq<nat>, k: nat)
    requires CutPoints(v, cuts) && ServedInPieces(v, remote, envs, cuts) && k < |cuts|
    ensures cuts[k] <= |v.content| && Fetched(envs[k..|cuts| - 1]) == v.content[cuts[k]..]
    decreases |cuts| - k
  {
    if k + 1 < |cuts| {
      PiecesAreTheRest(v, remote, envs, cuts, k + 1);
      assert ServesUpTo(v, remote, cuts[k], cuts[k + 1], envs[k]);
      var pieces := envs[k..|cuts| - 1];
      assert pieces[0] == envs[k] && pieces[1..] == envs[k + 1..|cuts| - 1];
      assert v.content[cuts[k]..cuts[k + 1]] + v.content[cuts[k + 1]..] == v.content[cuts[k]..];
    }
  }

  /**
   Starting without partial state, a run that is cut any number of times and then finishes: request k starts
   where the bytes so far end, under the recorded validator; the answers together are the file, byte for byte and
   none twice; and the output is that file.
   */
  lemma RunFetchesEachByteOnce(
    cfg: Config, f: Files, v: Version, remote: Remote, envs: seq<Env>, cuts: seq<nat>)
    requires cfg.resume && Source(v, remote) && CutPoints(v, cuts) && ServedInPieces(v, remote, envs, cuts)
    requires |cuts| <= TotalAttempts(cfg) + 1 <= |envs| + 1
    requires Part !in f && !SkipsExisting(cfg, f, remote)
    ensures var r := RunTarget(cfg, false, f, envs);
            && |r.requests| == |cuts| - 1
            && (forall k | 0 <= k < |r.requests| :: r.requests[k] == Wanted(remote, cuts[k]))
            && Fetched(envs[..|r.requests|]) == v.content
            && r.result.status.DownloadedStatus? && r.result.attempts == |r.requests|
            && Output in Now(r.trail) && Now(r.trail)[Output] == v.content
  {
    hide RunFrom, SkipsExisting, Source, Wanted, ServedInPieces;
    RunFetchesTheRest(cfg, [f], v, remote, envs, cuts, 0);
    RequestsAreWanted(remote, cuts, 0);
    PiecesAreTheRest(v, remote, envs, cuts, 0);
  }

  lemma {:induction false} RequestsAreWanted(remote: Remote, cuts: seq<nat>, k: nat)
    requires k < |cuts|
    ensures |RequestsFrom(remote, cuts, k)| == |cuts| - 1 - k
    ensures forall i | 0 <= i < |cuts| - 1 - k :: RequestsFrom(remote, cuts, k)[i] == Wanted(remote, cuts[k + i])
    decreases |cuts| - k
  {
    hide Wanted;
    if k + 1 < |cuts| {
      RequestsAreWanted(remote, cuts, k + 1);
    }
  }
}
