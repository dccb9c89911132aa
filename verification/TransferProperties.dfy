/**
 What any GET can do to the ".part" file, whatever the server sends and wherever the transfer stops.
 */
module TransferProperties {
  import opened Wrappers
  import opened Http
  import opened ContentRange
  import opened FileSystem
  import opened Transfer

  function Body(chunks: seq<Chunk>): Bytes {
    if chunks == [] then "" else chunks[0].bytes + Body(chunks[1..])
  }

  /** The bytes of the old ".part" that a transfer keeps: all of them on a resumed answer, none otherwise. */
  function KeptPrefix(job: Job, response: Response, base: Files): Bytes
    requires Appends(job, response) ==> Part in base
  {
    if Appends(job, response) then base[Part] else ""
  }

  /** The response the handler is started with: trailer fields are in it only when no body came before them. */
  function StartResponse(ex: Exchange): Response {
    if Body(ex.chunks) == "" then Returned(ex) else ex.response
  }

  /** Error answers and unsafe resumed answers: no byte of their body is written. */
  ghost predicate LeavesFileAlone(job: Job, response: Response) {
    || response.status >= 400
    || (Appends(job, response) && !CheckResumedRange(response, job.remoteLength, job.start).Valid?)
  }

  /** The part of the body that can reach the file. */
  ghost function Landing(job: Job, ex: Exchange): Bytes {
    if LeavesFileAlone(job, ex.response) then "" else Body(ex.chunks)
  }

  ghost predicate SameBesidesPart(f: Files, base: Files) {
    f - {Part} == base - {Part}
  }

  /** A ".part" that starts with the kept bytes and goes on with a prefix of the body. */
  ghost predicate Grown(f: Files, base: Files, kept: Bytes, whole: Bytes) {
    SameBesidesPart(f, base) && Part in f && kept <= f[Part] <= whole
  }

  /** Untouched, or without its ".part", or with a grown one; no other file changes. */
  ghost predicate Reachable(f: Files, base: Files, kept: Bytes, whole: Bytes) {
    f == base || f == base - {Part} || Grown(f, base, kept, whole)
  }

  ghost predicate AllReachable(t: Trail, from: nat, base: Files, kept: Bytes, whole: Bytes) {
    forall i | from <= i < |t| :: Reachable(t[i], base, kept, whole)
  }

  lemma AppendGrows(t: Trail, reached: Bytes, base: Files, kept: Bytes, whole: Bytes)
    requires Grown(Now(t), base, kept, whole) && Now(t)[Part] + reached <= whole
    ensures var t1 := Appended(t, Part, reached);
            && t <= t1 && AllReachable(t1, |t|, base, kept, whole)
            && Grown(Now(t1), base, kept, whole) && Now(t1)[Part] == Now(t)[Part] + reached
  {
    var f := Now(t);
    var t1 := Appended(t, Part, reached);
    forall i | |t| <= i < |t1|
      ensures Reachable(t1[i], base, kept, whole)
    {
      var b := f[Part] + reached[..i - |t| + 1];
      assert b <= f[Part] + reached;
      assert t1[i] == f[Part := b];
      assert f[Part := b] - {Part} == f - {Part};
    }
    assert f[Part := f[Part] + reached] - {Part} == f - {Part};
  }

  lemma PrefixOfSum(a: Bytes, reached: Bytes, bytes: Bytes, rest: Bytes)
    requires reached <= bytes
    ensures a + reached <= a + (bytes + rest)
    ensures a + bytes + rest == a + (bytes + rest)
  {
  }

  ghost predicate Growing(t: Trail, from: nat, base: Files, kept: Bytes, whole: Bytes) {
    from <= |t| && AllReachable(t, from, base, kept, whole) && Grown(Now(t), base, kept, whole)
  }

  lemma AllReachableJoins(t: Trail, t1: Trail, from: nat, base: Files, kept: Bytes, whole: Bytes)
    requires t <= t1 && AllReachable(t, from, base, kept, whole) && AllReachable(t1, |t|, base, kept, whole)
    ensures AllReachable(t1, from, base, kept, whole)
  {
    hide Reachable;
  }

  /** The first chunk with any bytes starts the response and is then written like the later ones. */
  lemma DeliverStarts(t: Trail, job: Job, ex: Exchange, chunks: seq<Chunk>)
    requires chunks != [] && chunks[0].bytes != ""
    ensures var s := OnStart(t, job, ex.response, ex.start);
            Deliver(t, job, ex, false, Unopened, chunks) ==
            if s.threw then Delivery(s.trail, false, Unopened, true)
            else Deliver(s.trail, job, ex, true, s.sink, chunks)
  {
    hide OnStart, OnChunk;
    var s := OnStart(t, job, ex.response, ex.start);
    if !s.threw {
      assert OnWrite(t, job, ex, false, Unopened, chunks[0]) == OnWrite(s.trail, job, ex, true, s.sink, chunks[0]);
    }
  }

  lemma DeliverNothing(t: Trail, job: Job, ex: Exchange)
    ensures Deliver(t, job, ex, false, Unopened, []) == Delivery(t, false, Unopened, false)
  {
  }

  lemma DeliverSkipsEmpty(t: Trail, job: Job, ex: Exchange, started: bool, sink: Sink, chunks: seq<Chunk>)
    requires sink.Open? ==> Part in Now(t)
    requires chunks != [] && chunks[0].bytes == ""
    ensures Deliver(t, job, ex, started, sink, chunks) == Deliver(t, job, ex, started, sink, chunks[1..])
    ensures Body(chunks) == Body(chunks[1..])
  {
    hide OnStart, OnChunk;
  }

  /** One chunk onto an open stream. */
  lemma WriteGrows(
    t: Trail, job: Job, ex: Exchange, origin: nat, written: nat, chunk: Chunk,
    from: nat, base: Files, kept: Bytes, whole: Bytes)
    requires Growing(t, from, base, kept, whole) && Now(t)[Part] + chunk.bytes <= whole
    ensures var d := OnWrite(t, job, ex, true, Open(origin, written), chunk);
            && t <= d.trail && d.started
            && Growing(d.trail, from, base, kept, whole)
            && d.sink.Open? && d.sink.base == origin
            && (!d.failed ==>
                  Now(d.trail)[Part] == Now(t)[Part] + chunk.bytes && d.sink.written == written + |chunk.bytes|)
  {
    hide Appended, SameBesidesPart, Reachable, AllReachable, OnStart;
    if chunk.bytes != "" {
      var reached := BytesReached(chunk);
      PrefixOfSum(Now(t)[Part], reached, chunk.bytes, "");
      AppendGrows(t, reached, base, kept, whole);
      AllReachableJoins(t, Appended(t, Part, reached), from, base, kept, whole);
    }
  }

  /** Delivering further chunks onto an open stream. */
  lemma {:induction false} DeliverGrows(
    t: Trail, job: Job, ex: Exchange, origin: nat, written: nat, chunks: seq<Chunk>,
    from: nat, base: Files, kept: Bytes, whole: Bytes)
    requires Growing(t, from, base, kept, whole) && Now(t)[Part] + Body(chunks) == whole
    ensures var d := Deliver(t, job, ex, true, Open(origin, written), chunks);
            && t <= d.trail && d.started
            && Growing(d.trail, from, base, kept, whole)
            && d.sink.Open? && d.sink.base == origin
            && (!d.failed ==> Now(d.trail)[Part] == whole && d.sink.written == written + |Body(chunks)|)
    decreases |chunks|
  {
    hide OnWrite, SameBesidesPart, Reachable, AllReachable;
    if chunks != [] {
      var d := OnWrite(t, job, ex, true, Open(origin, written), chunks[0]);
      PrefixOfSum(Now(t)[Part], chunks[0].bytes, chunks[0].bytes, Body(chunks[1..]));
      WriteGrows(t, job, ex, origin, written, chunks[0], from, base, kept, whole);
      if !d.failed {
        DeliverGrows(d.trail, job, ex, origin, d.sink.written, chunks[1..], from, base, kept, whole);
      }
    }
  }

  /** An error answer never reaches the file: its body is dropped, or refused on a 416. */
  lemma {:induction false} DeliverUnopened(t: Trail, job: Job, ex: Exchange, sink: Sink, chunks: seq<Chunk>)
    requires !sink.Open?
    ensures var d := Deliver(t, job, ex, true, sink, chunks);
            d.trail == t && d.started && d.sink == sink
    decreases |chunks|
  {
    if chunks != [] {
      DeliverUnopened(t, job, ex, sink, chunks[1..]);
    }
  }

  /** Starting the response throws, ignores the body, or opens the stream on the kept bytes. */
  lemma StartReaches(base: Files, t: Trail, job: Job, response: Response, fault: StartFault, whole: Bytes)
    requires Appends(job, response) ==> Part in base
    requires Now(t) == base || (Now(t) == base - {Part} && !Appends(job, response))
    requires KeptPrefix(job, response, base) <= whole
    ensures var s, kept := OnStart(t, job, response, fault), KeptPrefix(job, response, base);
            && t <= s.trail
            && AllReachable(s.trail, |t|, base, kept, whole)
            && (response.status >= 400 || Appends(job, response) ==> s.trail == t)
            && (LeavesFileAlone(job, response) ==> !s.sink.Open?)
            && (response.status >= 400 <==> !s.sink.Open? && !s.threw)
            && (!s.sink.Open? ==> Now(s.trail) == base || (Now(s.trail) == base - {Part} && !Appends(job, response)))
            && (s.sink.Open? ==>
                  && s.sink == Open(if Appends(job, response) then job.start else 0, 0)
                  && Grown(Now(s.trail), base, kept, whole) && Now(s.trail)[Part] == kept
                  && (Appends(job, response) ==> CheckResumedRange(response, job.remoteLength, job.start).Valid?))
  {
    hide CheckResumedRange;
    assert base - {Part} - {Part} == base - {Part};
    assert base[Part := ""] - {Part} == base - {Part};
    assert (base - {Part})[Part := ""] == base[Part := ""];
  }

  /**
   An answer that does not resume what was asked to be resumed removes the ".part" first and starts a new one after;
   an answer to a request for the whole file starts it over without removing it.
   */
  lemma StartingOver(t: Trail, job: Job, response: Response, fault: StartFault)
    requires response.status < 400 && !Appends(job, response)
    ensures var s := OnStart(t, job, response, fault);
            var cleared := if job.attemptedResume && !fault.keepsPart then t + [Now(t) - {Part}] else t;
            s == if fault.openFails then Started(cleared, true, Unopened)
                 else Started(cleared + [Now(cleared)[Part := ""]], false, Open(0, 0))
  {
  }

  /** A chunk on an open stream: all of it is written and counted, or a beginning of it and then the write throws. */
  lemma WritingChunk(t: Trail, base: nat, written: nat, chunk: Chunk)
    requires Part in Now(t)
    ensures var s := OnChunk(t, Open(base, written), chunk);
            && s.threw == chunk.writeFault.Some?
            && Part in Now(s.trail)
            && Now(s.trail)[Part] ==
               Now(t)[Part] +
               (if chunk.writeFault.Some? && chunk.writeFault.value < |chunk.bytes|
                then chunk.bytes[..chunk.writeFault.value] else chunk.bytes)
            && s.sink == Open(base, if s.threw then written else written + |chunk.bytes|)
  {
  }

  /** A failed flush leaves what had been there before the transfer, and of the rest as much as was not lost. */
  lemma FlushKeeps(t: Trail, base: nat, written: nat, loss: nat)
    requires Part in Now(t) && base <= |Now(t)[Part]|
    ensures var c := Closed(t, Open(base, written), Some(loss));
            && c.1 && Part in Now(c.0) && Now(c.0)[Part] <= Now(t)[Part]
            && |Now(c.0)[Part]| ==
               (if |Now(t)[Part]| - loss < base then base else |Now(t)[Part]| - loss)
    ensures Closed(t, Open(base, written), None) == (t, false)
  {
  }

  /** What a whole GET leaves, at every moment and at its end. */
  ghost predicate GetOutcome(t: Trail, p: Performance, job: Job, ex: Exchange)
    requires Appends(job, ex.response) ==> Part in Now(t)
  {
    var base, kept := Now(t), KeptPrefix(job, ex.response, Now(t));
    var whole := kept + Landing(job, ex);
    && t <= p.trail
    && AllReachable(p.trail, |t|, base, kept, whole)
    && Reachable(Now(p.trail), base, kept, whole)
    && (p.sink.Open? ==>
          && p.sink.base == (if Appends(job, ex.response) then job.start else 0)
          && Grown(Now(p.trail), base, kept, whole))
    && (LeavesFileAlone(job, ex.response) ==> p.trail == t)
    && (ex.response.status >= 400 ==> !p.sink.Open?)
    && (p.outcome.Answered? ==> ex.code == CURLE_OK)
    && (p.outcome != Aborted(OtherError) && ex.response.status < 400 ==> FullyWritten(t, p, job, ex))
  }

  /** A transfer below 400 without a local failure, cut short or not: all of the body has been written. */
  ghost predicate FullyWritten(t: Trail, p: Performance, job: Job, ex: Exchange)
    requires Appends(job, ex.response) ==> Part in Now(t)
  {
    && p.sink.Open? && p.sink.written == |Body(ex.chunks)|
    && Part in Now(p.trail) && Now(p.trail)[Part] == KeptPrefix(job, ex.response, Now(t)) + Body(ex.chunks)
    && SameBesidesPart(Now(p.trail), Now(t))
    && (Appends(job, ex.response) ==> CheckResumedRange(StartResponse(ex), job.remoteLength, job.start).Valid?)
  }

  ghost predicate DeliveryOutcome(t: Trail, d: Delivery, job: Job, ex: Exchange, body: Bytes)
    requires Appends(job, ex.response) ==> Part in Now(t)
  {
    var base, kept := Now(t), KeptPrefix(job, ex.response, Now(t));
    var whole := kept + body;
    && t <= d.trail
    && AllReachable(d.trail, |t|, base, kept, whole)
    && (LeavesFileAlone(job, ex.response) ==> d.trail == t && !d.sink.Open?)
    && (d.started || d.failed ==> body != "")
    && (!d.started ==>
          && d.sink == Unopened
          && (!d.failed ==> d.trail == t && body == "")
          && (Now(d.trail) == base || (Now(d.trail) == base - {Part} && !Appends(job, ex.response))))
    && (d.started && ex.response.status < 400 ==>
          && d.sink.Open? && d.sink.base == (if Appends(job, ex.response) then job.start else 0)
          && Grown(Now(d.trail), base, kept, whole)
          && (Appends(job, ex.response) ==> CheckResumedRange(ex.response, job.remoteLength, job.start).Valid?)
          && (!d.failed ==> Now(d.trail)[Part] == whole && d.sink.written == |body|))
  }

  /** The first non-empty chunk starts the response; before it nothing happens. */
  lemma {:induction false} DeliverReaches(t: Trail, job: Job, ex: Exchange, chunks: seq<Chunk>)
    requires Appends(job, ex.response) ==> Part in Now(t)
    ensures DeliveryOutcome(t, Deliver(t, job, ex, false, Unopened, chunks), job, ex, Body(chunks))
    decreases |chunks|
  {
    hide CheckResumedRange, Deliver, OnStart;
    if chunks == [] {
      DeliverNothing(t, job, ex);
    } else if chunks[0].bytes == "" {
      DeliverSkipsEmpty(t, job, ex, false, Unopened, chunks);
      DeliverReaches(t, job, ex, chunks[1..]);
    } else {
      var s, kept := OnStart(t, job, ex.response, ex.start), KeptPrefix(job, ex.response, Now(t));
      StartReaches(Now(t), t, job, ex.response, ex.start, kept + Body(chunks));
      DeliverStarts(t, job, ex, chunks);
      if s.sink.Open? {
        DeliverGrows(s.trail, job, ex, s.sink.base, 0, chunks, |t|, Now(t), kept, kept + Body(chunks));
      } else if !s.threw {
        DeliverUnopened(t, job, ex, s.sink, chunks);
      }
    }
  }

  /** Whatever is sent, a GET only removes ".part" or lets it grow by a prefix of the body. */
  lemma PerformReaches(t: Trail, job: Job, ex: Exchange)
    requires Appends(job, ex.response) ==> Part in Now(t)
    ensures GetOutcome(t, Perform(t, job, ex), job, ex)
  {
    hide CheckResumedRange, Deliver, OnStart, Body;
    var kept := KeptPrefix(job, ex.response, Now(t));
    var d := Deliver(t, job, ex, false, Unopened, ex.chunks);
    DeliverReaches(t, job, ex, ex.chunks);
    if !d.started {
      var fault := if d.failed then ex.restart else ex.start;
      StartReaches(Now(t), d.trail, job, Returned(ex), fault, kept + Landing(job, ex));
    }
  }

  /** Closing keeps the old bytes whatever a failed flush loses. */
  lemma ClosedReaches(base: Files, t: Trail, sink: Sink, flushLoss: Option<nat>, kept: Bytes, whole: Bytes)
    requires sink.Open? ==> sink.base == |kept| && Grown(Now(t), base, kept, whole)
    requires Reachable(Now(t), base, kept, whole)
    ensures var c := Closed(t, sink, flushLoss).0;
            && t <= c && AllReachable(c, |t|, base, kept, whole) && Reachable(Now(c), base, kept, whole)
            && (!Closed(t, sink, flushLoss).1 ==> c == t)
            && (kept == whole && Now(t) == base ==> forall i | |t| <= i < |c| :: c[i] == base)
  {
    if sink.Open? && flushLoss.Some? {
      var part := Now(t)[Part];
      var k := KeptSize(|part|, sink.base, flushLoss.value);
      assert kept <= part[..k] <= part;
      assert kept == whole ==> part[..k] == part;
      assert Now(t)[Part := part[..k]] - {Part} == Now(t) - {Part};
    }
  }

  // ----- transfers without a local failure

  /** Empty chunks are not written, so nothing can fail in writing them. */
  ghost predicate WritesWork(chunks: seq<Chunk>) {
    forall i | 0 <= i < |chunks| && chunks[i].bytes != "" :: chunks[i].writeFault.None?
  }

  lemma WritesWorkSplits(chunks: seq<Chunk>)
    requires chunks != []
    ensures WritesWork(chunks) <==>
            (chunks[0].bytes != "" ==> chunks[0].writeFault.None?) && WritesWork(chunks[1..])
  {
    if WritesWork(chunks[1..]) {
      forall i | 0 < i < |chunks| && chunks[i].bytes != ""
        ensures chunks[i].writeFault.None?
      {
        assert chunks[i] == chunks[1..][i - 1];
      }
    }
  }

  lemma {:induction false} EmptyBodyWrites(chunks: seq<Chunk>)
    requires Body(chunks) == ""
    ensures WritesWork(chunks)
    decreases |chunks|
  {
    if chunks != [] {
      EmptyBodyWrites(chunks[1..]);
      WritesWorkSplits(chunks);
    }
  }

  lemma {:induction false} DeliverOpenWorksIff(t: Trail, job: Job, ex: Exchange, sink: Sink, chunks: seq<Chunk>)
    requires sink.Open? && Part in Now(t)
    ensures var d := Deliver(t, job, ex, true, sink, chunks);
            d.started && (!d.failed <==> WritesWork(chunks))
    decreases |chunks|
  {
    hide OnStart, Appended, BytesReached, WritesWork;
    if chunks == [] {
      NothingIsWritten();
    } else {
      var d := OnWrite(t, job, ex, true, sink, chunks[0]);
      WritesWorkSplits(chunks);
      if !d.failed {
        DeliverOpenWorksIff(d.trail, job, ex, d.sink, chunks[1..]);
      }
    }
  }

  lemma NothingIsWritten()
    ensures WritesWork([])
  {
  }

  /** The response is let through and its file can be opened. */
  ghost predicate LetsThrough(job: Job, response: Response, fault: StartFault) {
    && !fault.openFails
    && (Appends(job, response) ==> CheckResumedRange(response, job.remoteLength, job.start).Valid?)
  }

  lemma {:induction false} DeliverWorksIff(t: Trail, job: Job, ex: Exchange, chunks: seq<Chunk>)
    requires ex.response.status < 400
    ensures var d := Deliver(t, job, ex, false, Unopened, chunks);
            && (!d.failed <==>
                  Body(chunks) == "" || (LetsThrough(job, ex.response, ex.start) && WritesWork(chunks)))
            && (!d.failed ==> (d.started <==> Body(chunks) != ""))
    decreases |chunks|
  {
    hide CheckResumedRange, Deliver, WritesWork;
    if chunks == [] {
      DeliverNothing(t, job, ex);
    } else if chunks[0].bytes == "" {
      DeliverSkipsEmpty(t, job, ex, false, Unopened, chunks);
      WritesWorkSplits(chunks);
      DeliverWorksIff(t, job, ex, chunks[1..]);
    } else {
      var s := OnStart(t, job, ex.response, ex.start);
      DeliverStarts(t, job, ex, chunks);
      if !s.threw {
        DeliverOpenWorksIff(s.trail, job, ex, s.sink, chunks);
      }
    }
  }

  /** The response that starts the transfer is not an error and is let through. */
  ghost predicate StartWorks(job: Job, ex: Exchange) {
    ex.response.status < 400 && LetsThrough(job, StartResponse(ex), ex.start)
  }

  /** Exactly when a GET below 400 ends as curl's result code says, and not with a local failure or a refusal. */
  lemma PerformWorksIff(t: Trail, job: Job, ex: Exchange)
    requires ex.response.status < 400
    ensures var o := Perform(t, job, ex).outcome;
            && (o != Aborted(OtherError) <==> StartWorks(job, ex) && WritesWork(ex.chunks))
            && (o != Aborted(OtherError) ==> o == Verdict(false, ex.code))
  {
    hide Deliver, CheckResumedRange, WritesWork;
    DeliverWorksIff(t, job, ex, ex.chunks);
    if Body(ex.chunks) == "" {
      EmptyBodyWrites(ex.chunks);
    }
  }

  // ----- transfers that are refused

  lemma {:induction false} EmptyBodyDeliversNothing(t: Trail, job: Job, ex: Exchange, chunks: seq<Chunk>)
    requires Body(chunks) == ""
    ensures Deliver(t, job, ex, false, Unopened, chunks) == Delivery(t, false, Unopened, false)
    decreases |chunks|
  {
    hide OnStart, OnChunk;
    if chunks != [] {
      EmptyBodyDeliversNothing(t, job, ex, chunks[1..]);
    }
  }

  lemma {:induction false} RefusedBodyThrows(t: Trail, job: Job, ex: Exchange, chunks: seq<Chunk>)
    requires Body(chunks) != "" && ex.response.status == 416
    ensures Deliver(t, job, ex, false, Unopened, chunks) == Delivery(t, true, Unopened, true)
    decreases |chunks|
  {
    if chunks[0].bytes == "" {
      RefusedBodyThrows(t, job, ex, chunks[1..]);
    }
  }

  /** A 416 without a body leaves it to curl's result code; the body of one is refused. */
  lemma RefusedTransfer(t: Trail, job: Job, ex: Exchange)
    requires ex.response.status == 416
    ensures Perform(t, job, ex) ==
            Performance(t, Unopened, if Body(ex.chunks) == "" then Verdict(false, ex.code) else Aborted(OtherError))
  {
    hide Deliver;
    if Body(ex.chunks) == "" {
      EmptyBodyDeliversNothing(t, job, ex, ex.chunks);
    } else {
      RefusedBodyThrows(t, job, ex, ex.chunks);
    }
  }

  lemma {:induction false} DiscardedBodyNeverFails(t: Trail, job: Job, ex: Exchange, chunks: seq<Chunk>)
    ensures Deliver(t, job, ex, true, Discarding, chunks) == Delivery(t, true, Discarding, false)
    decreases |chunks|
  {
    if chunks != [] {
      DiscardedBodyNeverFails(t, job, ex, chunks[1..]);
    }
  }

  lemma {:induction false} DeliverErrorBody(t: Trail, job: Job, ex: Exchange, chunks: seq<Chunk>)
    requires ex.response.status >= 400 && ex.response.status != 416
    ensures !Deliver(t, job, ex, false, Unopened, chunks).failed
    decreases |chunks|
  {
    hide Deliver;
    if chunks == [] {
      DeliverNothing(t, job, ex);
    } else if chunks[0].bytes == "" {
      DeliverSkipsEmpty(t, job, ex, false, Unopened, chunks);
      DeliverErrorBody(t, job, ex, chunks[1..]);
    } else {
      DeliverStarts(t, job, ex, chunks);
      DiscardedBodyNeverFails(t, job, ex, chunks);
    }
  }

  lemma ErrorTransfer(t: Trail, job: Job, ex: Exchange)
    requires ex.response.status >= 400 && ex.response.status != 416
    requires Appends(job, ex.response) ==> Part in Now(t)
    ensures var p := Perform(t, job, ex);
            p.trail == t && !p.sink.Open? && p.outcome == Verdict(false, ex.code)
  {
    hide Deliver;
    PerformReaches(t, job, ex);
    DeliverErrorBody(t, job, ex, ex.chunks);
  }

  lemma PerformFailures(t: Trail, job: Job, ex: Exchange)
    ensures var o := Perform(t, job, ex).outcome;
            o.Aborted? ==> o.error.OtherError? || o.error.NetworkError?
  {
    hide Deliver, OnStart;
  }
}
