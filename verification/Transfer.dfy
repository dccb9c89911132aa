/**
 One GET: the order in which the HTTP client calls the response handler (http_client.cpp) and what the
 handler does to the ".part" file (FileResponseHandler in target_download_executor.cpp).
 */
module Transfer {
  import opened Wrappers
  import opened Text
  import opened Http
  import opened ContentRange
  import opened FileSystem

  /** Body bytes handed to the write callback; writing them may throw after some of them reached the file. */
  datatype Chunk = Chunk(bytes: Bytes, writeFault: Option<nat>)

  const CURLE_OK := 0

  /** What fails when the handler is started: removing the ".part", without a word, or opening it. */
  datatype StartFault = StartFault(keepsPart: bool, openFails: bool)

  const START_WORKS := StartFault(false, false)

  /**
   Everything the outside world decides about one GET: the answer (status 0 when there is none), the pieces
   of body that arrive before the transfer ends, the trailer fields that the header callback collects after
   them, curl's result code, and what fails on the local disk: in starting the handler once or twice, in flushing,
   and in removing the partial state that a server has refused to complete.
   */
  datatype Exchange = Exchange(
    response: Response,
    chunks: seq<Chunk>,
    trailers: Headers,
    code: int,
    start: StartFault,
    restart: StartFault,
    flushLoss: Option<nat>,
    refused: Kept)

  /** The response after the transfer: trailer fields have been added to the header fields, or have replaced them. */
  function Returned(ex: Exchange): Response {
    ex.response.(headers := ex.response.headers + ex.trailers)
  }

  /** What the handler is constructed with. */
  datatype Job = Job(attemptedResume: bool, start: nat, remoteLength: Option<uint64>)

  /** The handler's stream: never opened, ignored, or open on the file from a given byte on. */
  datatype Sink = Unopened | Discarding | Open(base: nat, written: nat)

  datatype Started = Started(trail: Trail, threw: bool, sink: Sink)

  predicate Appends(job: Job, response: Response) {
    job.attemptedResume && response.status == 206
  }

  function OnStart(t: Trail, job: Job, response: Response, fault: StartFault): (s: Started)
    ensures s.sink.Open? ==> Part in Now(s.trail)
    ensures s.threw ==> s.sink == Unopened
  {
    if response.status == 416 then Started(t, false, Unopened)
    else if response.status >= 400 then Started(t, false, Discarding)
    else if Appends(job, response) then
      if !CheckResumedRange(response, job.remoteLength, job.start).Valid? || fault.openFails
      then Started(t, true, Unopened)
      else Started(OpenedAtEnd(t, Part), false, Open(job.start, 0))
    else
      var cleared := if job.attemptedResume then RemovedUnless(t, Part, fault.keepsPart) else t;
      if fault.openFails then Started(cleared, true, Unopened)
      else Started(Truncated(cleared, Part), false, Open(0, 0))
  }

  function BytesReached(chunk: Chunk): Bytes {
    if chunk.writeFault.Some? && chunk.writeFault.value < |chunk.bytes| then chunk.bytes[..chunk.writeFault.value]
    else chunk.bytes
  }

  function OnChunk(t: Trail, sink: Sink, chunk: Chunk): (s: Started)
    requires sink.Open? ==> Part in Now(t)
    ensures s.sink.Open? ==> Part in Now(s.trail)
    ensures s.sink.Open? <==> sink.Open?
  {
    match sink
    case Discarding => Started(t, false, sink)
    case Unopened => Started(t, true, sink)
    case Open(base, written) =>
      var t1 := Appended(t, Part, BytesReached(chunk));
      if chunk.writeFault.Some? then Started(t1, true, sink)
      else Started(t1, false, Open(base, written + |chunk.bytes|))
  }

  /** Where the transfer stands: whether the response has been started, and whether a callback has thrown. */
  datatype Delivery = Delivery(trail: Trail, started: bool, sink: Sink, failed: bool)

  /** write_callback on one chunk: an empty one is ignored, the first other one starts the response. */
  function OnWrite(t: Trail, job: Job, ex: Exchange, started: bool, sink: Sink, chunk: Chunk): (d: Delivery)
    requires sink.Open? ==> Part in Now(t)
    ensures d.sink.Open? ==> Part in Now(d.trail)
    ensures !started && !d.started && !d.failed ==> d == Delivery(t, false, sink, false)
  {
    if chunk.bytes == "" then Delivery(t, started, sink, false)
    else
      var s := if started then Started(t, false, sink) else OnStart(t, job, ex.response, ex.start);
      if s.threw then Delivery(s.trail, false, s.sink, true)
      else
        var c := OnChunk(s.trail, s.sink, chunk);
        Delivery(c.trail, true, c.sink, c.threw)
  }

  /** The write callback over all chunks, up to the first exception. */
  function Deliver(t: Trail, job: Job, ex: Exchange, started: bool, sink: Sink, chunks: seq<Chunk>): (d: Delivery)
    requires sink.Open? ==> Part in Now(t)
    ensures d.sink.Open? ==> Part in Now(d.trail)
    decreases |chunks|
  {
    if chunks == [] then Delivery(t, started, sink, false)
    else
      var d := OnWrite(t, job, ex, started, sink, chunks[0]);
      if d.failed then d else Deliver(d.trail, job, ex, d.started, d.sink, chunks[1..])
  }

  datatype Outcome = Answered | Aborted(error: Failure)

  datatype Performance = Performance(trail: Trail, sink: Sink, outcome: Outcome)

  /**
   perform_request on a GET: when the transfer ends without a started response the handler is started then,
   trailer fields included, even if there was no answer at all or if starting it has already thrown once.
   */
  function Perform(t: Trail, job: Job, ex: Exchange): (p: Performance)
    ensures p.sink.Open? ==> Part in Now(p.trail)
  {
    var d := Deliver(t, job, ex, false, Unopened, ex.chunks);
    if d.started then Performance(d.trail, d.sink, Verdict(d.failed, ex.code))
    else
      var s := OnStart(d.trail, job, Returned(ex), if d.failed then ex.restart else ex.start);
      Performance(s.trail, s.sink, if s.threw then Aborted(OtherError) else Verdict(d.failed, ex.code))
  }

  function Verdict(callbackFailed: bool, code: int): Outcome {
    if callbackFailed then Aborted(OtherError)
    else if code != CURLE_OK then Aborted(NetworkError(code))
    else Answered
  }

  /** Closing the stream: a failed flush loses bytes written by this transfer, never older ones, and throws. */
  function Closed(t: Trail, sink: Sink, flushLoss: Option<nat>): (Trail, bool)
    requires sink.Open? ==> Part in Now(t)
  {
    if sink.Open? && flushLoss.Some? then
      (Shortened(t, Part, KeptSize(|Now(t)[Part]|, sink.base, flushLoss.value)), true)
    else (t, false)
  }

  function KeptSize(size: nat, base: nat, loss: nat): (kept: nat)
    ensures kept <= size
    ensures base <= size ==> base <= kept
  {
    if size - loss >= base then size - loss else if base <= size then base else size
  }

  // ----- the same as the program does it

  class FileResponseHandler {
    const disk: Disk
    const job: Job
    var activeStart: nat
    var bytesWritten: nat
    var discardBody: bool
    var streamOpen: bool
    var closed: bool

    ghost predicate Valid()
      reads this, disk
    {
      && disk.Valid()
      && (streamOpen ==> Part in disk.files && !discardBody)
    }

    function CurrentSink(): Sink
      reads this
    {
      if discardBody then Discarding else if streamOpen then Open(activeStart, bytesWritten) else Unopened
    }

    constructor (disk: Disk, job: Job)
      requires disk.Valid()
      ensures Valid() && this.disk == disk && this.job == job
      ensures CurrentSink() == Unopened && bytesWritten == 0 && !closed
    {
      this.disk, this.job := disk, job;
      activeStart, bytesWritten := 0, 0;
      discardBody, streamOpen, closed := false, false, false;
    }

    method OnResponseStart(response: Response, fault: StartFault) returns (threw: bool)
      requires Valid() && CurrentSink() == Unopened && bytesWritten == 0
      modifies this, disk
      ensures Valid() && bytesWritten == 0 && closed == old(closed)
      ensures Started(disk.trail, threw, CurrentSink()) == OnStart(old(disk.trail), job, response, fault)
    {
      if response.status == 416 {
        return false;
      }
      if response.status >= 400 {
        discardBody := true;
        return false;
      }
      var append := job.attemptedResume && response.status == 206;
      if job.attemptedResume && response.status != 206 {
        disk.Remove(Part, fault.keepsPart);
      }
      activeStart := if append then job.start else 0;
      if append {
        var check := CheckResumedRange(response, job.remoteLength, job.start);
        if !check.Valid? {
          return true;
        }
      }
      if fault.openFails {
        return true;
      }
      if append {
        disk.OpenAtEnd(Part);
      } else {
        disk.Truncate(Part);
      }
      streamOpen := true;
      return false;
    }

    method HandleChunk(chunk: Chunk) returns (threw: bool)
      requires Valid()
      modifies this, disk
      ensures Valid() && closed == old(closed)
      ensures Started(disk.trail, threw, CurrentSink()) == OnChunk(old(disk.trail), old(CurrentSink()), chunk)
      ensures CurrentSink().Open? || bytesWritten == old(bytesWritten)
    {
      if discardBody {
        return false;
      }
      if !streamOpen {
        return true;
      }
      disk.Append(Part, BytesReached(chunk));
      if chunk.writeFault.Some? {
        return true;
      }
      bytesWritten := bytesWritten + |chunk.bytes|;
      return false;
    }

    /** Closing once flushes and closes the stream; closing again does nothing. */
    method Close(flushLoss: Option<nat>) returns (threw: bool)
      requires Valid()
      modifies this, disk
      ensures Valid() && closed && bytesWritten == old(bytesWritten)
      ensures old(closed) ==> disk.trail == old(disk.trail) && !threw
      ensures !old(closed) ==> (disk.trail, threw) == Closed(old(disk.trail), old(CurrentSink()), flushLoss)
    {
      if closed {
        return false;
      }
      closed := true;
      threw := false;
      if streamOpen {
        if flushLoss.Some? {
          disk.Shorten(Part, KeptSize(|disk.files[Part]|, activeStart, flushLoss.value));
          threw := true;
        }
        streamOpen := false;
      }
    }
  }

  /** A handler whose response has not been started, or is being written. */
  ghost predicate InTransfer(handler: FileResponseHandler, started: bool)
    reads handler, handler.disk
  {
    && handler.Valid()
    && (handler.CurrentSink().Open? || handler.bytesWritten == 0)
    && (!started ==> handler.CurrentSink() == Unopened)
  }

  method WriteCallback(handler: FileResponseHandler, ex: Exchange, responseStarted: bool, chunk: Chunk)
    returns (started: bool, failed: bool)
    requires InTransfer(handler, responseStarted)
    modifies handler, handler.disk
    ensures InTransfer(handler, started) && handler.closed == old(handler.closed)
    ensures Delivery(handler.disk.trail, started, handler.CurrentSink(), failed) ==
            OnWrite(old(handler.disk.trail), handler.job, ex, responseStarted, old(handler.CurrentSink()), chunk)
  {
    hide OnStart, OnChunk;
    started := responseStarted;
    if chunk.bytes == "" {
      return started, false;
    }
    if !started {
      var threw := handler.OnResponseStart(ex.response, ex.start);
      if threw {
        return false, true;
      }
      started := true;
    }
    failed := handler.HandleChunk(chunk);
  }

  /** The HTTP client's GET: deliver the chunks in order, start the handler at the latest afterwards, then judge. */
  method PerformGet(handler: FileResponseHandler, ex: Exchange) returns (outcome: Outcome)
    requires InTransfer(handler, false)
    modifies handler, handler.disk
    ensures InTransfer(handler, true) && handler.closed == old(handler.closed)
    ensures Performance(handler.disk.trail, handler.CurrentSink(), outcome) ==
            Perform(old(handler.disk.trail), handler.job, ex)
  {
    hide OnStart, OnWrite;
    var responseStarted, callbackFailed := false, false;
    var i := 0;
    ghost var whole := Deliver(handler.disk.trail, handler.job, ex, false, Unopened, ex.chunks);
    while i < |ex.chunks| && !callbackFailed
      invariant 0 <= i <= |ex.chunks|
      invariant InTransfer(handler, responseStarted) && handler.closed == old(handler.closed)
      invariant var sink := handler.CurrentSink();
                whole == if callbackFailed then Delivery(handler.disk.trail, responseStarted, sink, true)
                         else Deliver(handler.disk.trail, handler.job, ex, responseStarted, sink, ex.chunks[i..])
    {
      assert ex.chunks[i..][0] == ex.chunks[i] && ex.chunks[i..][1..] == ex.chunks[i + 1..];
      responseStarted, callbackFailed := WriteCallback(handler, ex, responseStarted, ex.chunks[i]);
      i := i + 1;
    }
    assert !callbackFailed ==> ex.chunks[i..] == [];
    if !responseStarted {
      var threw := handler.OnResponseStart(Returned(ex), if callbackFailed then ex.restart else ex.start);
      if threw {
        return Aborted(OtherError);
      }
    }
    outcome := Verdict(callbackFailed, ex.code);
  }
}
