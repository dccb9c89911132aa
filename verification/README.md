# Verified model of the oceandl download engine

oceandl downloads large NetCDF files over HTTP and resumes interrupted downloads. It keeps, per target, the
finished file, a `.part` with the bytes so far, a `.part.meta` record saying which remote file those bytes belong
to, a `.lock` directory and, during replacement, a `.replace-backup`. This project models that engine and the
codecs and protocols it rests on, and proves what they promise.

How the model is laid out:

- **Disk and crashes** (`FileSystem`, `SafeReplace`). The disk is a map from the target's files to their bytes, held
  by a class whose methods do one file-system call each. Every call extends a ghost *trail* with the states the disk
  passes through, one state per byte for a write. A crash leaves any state of the trail. A removal may fail without a
  word, as `safe_remove` does, wherever the engine removes a file.
- **One GET** (`Transfer`, `TransferProperties`). The handler class and the client's callback order, against an
  exchange that may carry any status, headers, chunks and trailer fields, be cut anywhere, and fail locally on open,
  write or flush.
- **Attempt and run** (`Executor`). The plan, the transfer, the checks, the replacement, the catch block and the
  retry loop, as methods proved to follow functions from trail to trail. The theorems are about those functions:
  `Plans`, `Outcomes`, `Acceptance`, `SizeCheck`, `Retry`, `ResumeProperties`, `Resumption` hold against any server;
  `Integrity`, `History`, `Durability`, `Convergence` and `Progress` against a server (`Server`) that never reuses a
  validator and follows sections 6.5.1, 13.1.5, 14.2 and 14.4 of RFC 9110 (no Content-Range or Content-Length in trailers, 206 only
  to a Range request whose If-Range is current, truthful Content-Range, Content-Length on 200). Integrity and
  durability also need that no record is written beside bytes of another version that could not be removed
  (`Integrity.RecordsOwnBytes`); `Splice` shows why.
- **Codecs** (`Text`, `TextStream`, `ContentRange`, `PartialMetadata`, `HeaderFields`, `HeadAnswers`, `LockOwner`,
  `CommandLine`).
- **Lock protocol** (`Lock`): processes take file-system steps in any order. `Concurrency` joins it with the runs:
  any number of processes, each going through the states of its run while it holds the lock.
- **Targets** (`Targets`): the files a request names.

Results that differ from what one might expect of the code:

- `.part` is not always a beginning of the version its record names: the record can be older
  (`Splice.RecordCanBeOlder`). What holds is that the `.part` is a beginning of some version no older than the recorded
  one (`Integrity.Sound`), which suffices.
- A discarded `.part` whose removal fails without a word gets the record of the new version beside it. If the server is
  then busy, the next attempt resumes the old bytes with the new file's rest and reports a download that is neither
  (`Splice.FailedRemovalCanSplice`). `Splice.StaleRecordIsSoundIff` says exactly when the record does no harm.
- A resume that gets no answer at all loses the partial: the handler is started with status 0, which is not 206, and
  starts the file over (`Resumption.UnansweredResumeStartsOver`; `Resumption.CutKeepsBytesIff` is the exact condition).
- Replacement can lose the last complete file if the destination is incomplete and only the backup is complete,
  because the backup is removed, or replaced, first. `SafeReplace.ReplaceNeverLosesIff` gives the exact condition and
  `SafeReplace.BadDestinationLosesBackup` an instance; the engine itself never puts an incomplete file there.
- A valid Content-Range that ends before its total is not always refused. `ResumeProperties.ShortRangeAcceptedIff` is
  the exact condition: the bytes must fill the total all the same, either because more of them came than the range
  announced (`ResumeProperties.ShortRangeCanBeAccepted`), which a Content-Length equal to the bytes received rules
  out, or because a trailer has put another Content-Range in place of the first
  (`ResumeProperties.TrailerCanOverruleRange`), which also overrules the size that HEAD gave.
- The 64-bit sum of start byte and Content-Length can wrap on a resume, but only if trailer fields replace the
  Content-Range (`SizeCheck.TrailerCanWrapSize`). A wrapped size is never accepted (`SizeCheck.RunSizesAreExact`).
- The partial survives error answers only while its record does. The record is rewritten before each GET, and if a
  write is cut short in silence and what is left no longer matches, the next attempt starts at byte 0
  (`ResumeProperties.CutRecordRestarts`).
- The lock's stale-directory inspection and removal are separate calls, and mutual exclusion fails without more:
  `Lock.TwoHoldersWithoutAtomicity` is a run with two holders, and `Lock.TwoHoldersThroughLegacyFile` another one
  through the removal of an older release's lock file. What exclusion needs, exactly, is that recoveries clear the
  path only while no live process owns a directory there (`Lock.ExclusionIffOwnersSpared`). Hitting the inspected
  directory, inspecting and removing in one step, or inspecting again at the removal are each enough.
- An owner file cut inside its number names another process (`LockOwner.CutOwnerNamesAnotherPid`), so the lock
  protocol assumes that the file appears in one piece.
- `CURLE_HTTP2_STREAM` is listed as retryable behind a preprocessor test that an enumerator never passes; the model
  follows the compiled code.
- The Windows command line is parsed back exactly when the program name has no quote mark and, if it must be quoted,
  no final backslash; arguments are unrestricted (`CommandLine.CommandLineRoundTripIff`).

## Model

| member | source | states |
|---|---|---|
| Text.TrimDropsOnlyBlanks | cpp/src/utils.cpp:46-53 | trimming removes blanks from the two ends and nothing else |
| Text.ParsePrintedUint | cpp/src/utils.cpp:164-178 | a printed decimal is read back exactly when it is below 2^64, and rejected from there on |
| Text.ParsePaddedUint | cpp/src/utils.cpp:164-178 | a number is read through any blanks around it |
| Text.ParseUintRejects | cpp/src/utils.cpp:164-178 | a text with a character that is neither digit nor blank is no number |
| Text.BlanksAreTrimmed | cpp/src/utils.cpp:46-53 | space, tab and both line breaks are trimmed, other white space is not |
| Validation.SignatureIff | cpp/src/validation.cpp:80-90 | a payload begins with the four bytes of NetCDF classic 1, 2 or 5 or the eight of HDF5, and nothing else passes |
| HeaderFields.HeaderState.HeaderCallback | cpp/src/http_client.cpp:57-88 | the callback folds one more line into status and fields; the two lemmas below describe the fold |
| HeaderFields.LastResponseWins | cpp/src/http_client.cpp:57-88 | fields of redirects and interim answers never reach the final response |
| HeaderFields.StatusLineIsRead | cpp/src/http_client.cpp:64-79 | a printed status line starts an empty response with its status, with or without reason phrase |
| HeaderFields.FieldLineIsCollected | cpp/src/http_client.cpp:81-87 | a printed field is collected under its name in lower case |
| HeaderFields.OtherLinesAreIgnored | cpp/src/http_client.cpp:57-84 | blank lines and lines that are neither status line nor field change nothing |
| HeaderFields.UnreadableStatusIsKept | cpp/src/http_client.cpp:64-79 | a status line without a readable number clears the fields and keeps the status |
| HeadAnswers.PrintedHeadIsReadBack | cpp/src/providers/base.cpp:85-99 | the printed lines of a 200 answer come back as its status, length, ranges, ETag and Last-Modified |
| HeadAnswers.SilentFieldsSayNothing | cpp/src/providers/base.cpp:85-99 | each of the four is unknown exactly when its field is missing or, for the length, no number |
| HeadAnswers.HeadStatusDecides | cpp/src/providers/base.cpp:9-83 | HEAD is ignored after a network failure or nine statuses, fatal at any other of 400 or more, and believed below |
| HeaderFields.LinesKeepNormalized | cpp/src/http_client.cpp:81-87 | after any lines, names are lower-case and names and values trimmed |
| Http.RetryAfterSeconds | cpp/src/http_client.cpp:330-337 | a Retry-After is never taken as more than 300 seconds |
| ContentRange.PrintedRangeParses | cpp/src/download_resume.cpp:75-116 | parsing "bytes s-e/t" returns the three numbers exactly when all fit in 64 bits |
| ContentRange.FormsAreExclusive | cpp/src/download_resume.cpp:39-53 | no header is accepted both as a range and in the unsatisfied form |
| ContentRange.UnitDecides | cpp/src/download_resume.cpp:75-85 | the unit counts in any case, and any unit but bytes is refused by both parsers |
| ContentRange.SizeWithoutTotal | cpp/src/download_resume.cpp:250-259 | without a readable total the size is the Content-Length, plus the start on a 206, or else what HEAD said |
| ContentRange.UnsatisfiedYieldsTotalOnly | cpp/src/download_resume.cpp:118-131 | "bytes */t" yields its total, within 64 bits, and never a range |
| ContentRange.ValidIffSafeAnswer | cpp/src/download_resume.cpp:133-237 | a resumed answer passes exactly when, in unbounded arithmetic, it starts at the requested byte, ends below the total, agrees with the remote size and its Content-Length is its span |
| ContentRange.ReasonsBefore | cpp/src/download_resume.cpp:138-162 | a missing, unsatisfied or unreadable Content-Range is refused as such |
| ContentRange.ReasonsInOrder | cpp/src/download_resume.cpp:164-230 | of several things wrong with a range the first in the source's order is the reason given, each exactly when |
| ContentRange.SpanIsExact | cpp/src/download_resume.cpp:219 | the 64-bit span computation does not wrap once the end is below the total |
| ContentRange.ExpectedTotalOfValidRange | cpp/src/download_resume.cpp:239-260 | an accepted resumed answer is measured by the total of its Content-Range |
| TextStream.ReadBackQuoted | cpp/src/download_resume.cpp:283-284 | a std::quoted string is read back whatever characters it contains |
| TextStream.WordsAreSeparated | cpp/src/download_resume.cpp:304-308 | six characters separate words, any other is part of one |
| TextStream.TornQuoteFails | cpp/src/download_resume.cpp:321-324 | a quoted string cut before its closing quote is not accepted |
| PartialMetadata.LoadMetadata | cpp/src/download_resume.cpp:291-342 | the stream loop computes Load, the reader of the round-trip and torn-write theorems |
| PartialMetadata.MetadataRoundTrip | cpp/src/download_resume.cpp:267-342 | reading what was written gives the same length and validators, trimmed, empty as absent, for all strings |
| PartialMetadata.RecordLooksLike | cpp/src/download_resume.cpp:276-284 | the text of a record, line by line |
| PartialMetadata.OtherKeySpoils | cpp/src/download_resume.cpp:321-334 | an entry under any other key makes the record unreadable |
| PartialMetadata.BadLengthSpoils | cpp/src/download_resume.cpp:305-319 | so does a length that is no number |
| PartialMetadata.NoLengthNoRecord | cpp/src/download_resume.cpp:337-339 | and so does a missing length line |
| PartialMetadata.IdentityIff | cpp/src/download_resume.cpp:57-63 | a file has an identity exactly if its ETag or Last-Modified has more than blanks |
| PartialMetadata.FullRecordRecognizedIff | cpp/src/download_resume.cpp:344-368 | a record is recognized exactly by a file with an identity whose reported length and validators are the recorded ones |
| PartialMetadata.CutRecordAgrees | cpp/src/download_resume.cpp:291-368 | a record cut anywhere is recognized only by such a file |
| PartialMetadata.TornMetadataIsHarmless | cpp/src/download_resume.cpp:267-368 | whatever a record cut at any character matches, the full record matches too |
| PartialMetadata.MatchedRemoteHasIfRange | cpp/src/download_resume.cpp:57-73 | after any matching record, the If-Range value exists and is not blank: the two blank checks cannot disagree |
| FileSystem.Disk.Remove | cpp/src/utils.cpp:100-103 | removing a file adds the one state without it, or none if it fails in silence |
| FileSystem.Disk.RemovePartialState | cpp/src/download_resume.cpp:262-265 | the data goes before the record that describes it, and either may stay behind |
| FileSystem.DataGoesFirst | cpp/src/download_resume.cpp:262-265 | no state of a removal has the data without the record, unless the data could not be removed |
| SafeReplace.SafeReplaceFile | cpp/src/utils.cpp:105-130 | the replacement passes through exactly the states of Replaced, whichever rename throws; the four lemmas below say what those states keep |
| SafeReplace.ReplaceNeverLosesIff | cpp/src/utils.cpp:105-130 | with a complete file somewhere, every state of a replacement has one exactly when the destination is absent or complete, or the old backup cannot be removed and nothing is moved |
| SafeReplace.BadDestinationLosesBackup | cpp/src/utils.cpp:111-114 | an incomplete destination beside a complete backup is a case where none is left for a moment |
| SafeReplace.ReplaceSucceeds | cpp/src/utils.cpp:105-130 | a replacement that returns has moved the new bytes in and left no backup of the old unless its removal failed |
| SafeReplace.ReplaceFailureRestores | cpp/src/utils.cpp:118-127 | a replacement that throws restores the old bytes; if rolling back fails they are in the backup |
| SafeReplace.RoundsNeverLoseTheFile | cpp/src/utils.cpp:105-130 | over any sequence of replacements with throws and crashes a complete file stays available |
| Transfer.FileResponseHandler.OnResponseStart | cpp/src/target_download_executor.cpp:96-159 | starting a response changes ".part" and the stream as OnStart says, also when it throws; StartReaches and PerformReaches bound what that can be |
| Transfer.FileResponseHandler.HandleChunk | cpp/src/target_download_executor.cpp:161-179 | a chunk is dropped, refused or appended, and counted only when fully written |
| Transfer.FileResponseHandler.Close | cpp/src/target_download_executor.cpp:185-206 | the first close reports a failed flush and can lose only bytes of this transfer; closing again does nothing |
| Transfer.WriteCallback | cpp/src/http_client.cpp:90-115 | a chunk starts the response if it is the first, and an exception from starting or writing ends the transfer and leaves the response unstarted or started |
| Transfer.PerformGet | cpp/src/http_client.cpp:215-319 | chunks, the late start after the transfer with the trailer fields, and a repeated start after a throw leave the trail of Perform, which PerformReaches bounds |
| TransferProperties.PerformReaches | cpp/src/http_client.cpp:215-319 | whatever is sent, a GET leaves every other file alone and ".part" untouched, removed, or its kept bytes plus a beginning of the body; error and unsafe answers change nothing |
| TransferProperties.WritingChunk | cpp/src/target_download_executor.cpp:161-179 | a chunk is written and counted in full, or a beginning of it is written and the write throws |
| TransferProperties.StartingOver | cpp/src/target_download_executor.cpp:106-156 | an answer that does not resume what was to be resumed removes ".part" before starting it over; one to a whole-file request only starts it over |
| TransferProperties.ClosedReaches | cpp/src/target_download_executor.cpp:185-206 | a failed flush never costs bytes older than the transfer |
| ExecutorProperties.TransferOutcome | cpp/src/target_download_executor.cpp:406-435 | a GET that ended without local failure has added exactly the body to the kept bytes; an unsafe resumed answer changes no byte and one of 400 or more nothing at all |
| ExecutorProperties.StreamAcceptsIff | cpp/src/target_download_executor.cpp:406-492 | a stream accepts exactly when the response is let through, open, writes, flush and curl succeed, and kept bytes plus body have the final size and the signature; the branch accepting a 416 is dead |
| ExecutorProperties.StreamRejectsIff | cpp/src/target_download_executor.cpp:406-492 | each refusal of an answer below 400 exactly when: local failure or unsafe answer, curl's failure, size not announced or another one, or right size and no payload |
| ExecutorProperties.ExpectedSizeIsExactIff | cpp/src/download_resume.cpp:239-260 | the expected size equals its unbounded value exactly unless a 206 without a readable total has a length that wraps with the start; a wrapped size is below the start |
| SizeCheck.RunSizesAreExact | cpp/src/target_download_executor.cpp:463-480 | in every attempt of every run, no accepted size is a wrapped one, and a size check meets a wrapped one only on a resumed 206 whose Content-Range was hidden by a trailer |
| SizeCheck.TrailerCanWrapSize | cpp/src/target_download_executor.cpp:463-480 | such a trailer makes a complete resumed file fail its size check |
| Executor.TargetDownloadExecutor.MaybeSkipExistingOutput | cpp/src/target_download_executor.cpp:494-541 | it skips exactly when a valid output need not be overwritten, and then clears the partial state |
| Executor.TargetDownloadExecutor.PrepareTransferPlan | cpp/src/target_download_executor.cpp:543-639 | the plan is that of Decide, and partial state is discarded exactly with a discarding plan; PlanIff below says which plan that is |
| Plans.PlanIff | cpp/src/target_download_executor.cpp:543-639 | each plan exactly when: promote, resume or discard told from the two files and what HEAD says; the request is under the ETag if there is one |
| Plans.AttemptAsksIff | cpp/src/target_download_executor.cpp:310-346 | exactly when an attempt sends a GET |
| Plans.AttemptSendsRangeIff | cpp/src/target_download_executor.cpp:543-639 | exactly when that GET asks for a range, and then for which one under which validator |
| Plans.RefusedRangesAreNotAskedFor | cpp/src/target_download_executor.cpp:621-630 | a server that refuses ranges is asked for the whole file, and a ".part" that is not yet the file is discarded |
| Plans.ChangedRemoteStartsOver | cpp/src/target_download_executor.cpp:595-604 | once HEAD reports another length or validator than was recorded, ".part" is discarded and the whole file asked for |
| Plans.PromotionIff | cpp/src/target_download_executor.cpp:321-338 | a promotion sends nothing and reports a recovered file of 0 bytes, or a local failure that leaves ".part" |
| Plans.NoRecordWithoutIdentity | cpp/src/target_download_executor.cpp:340-342 | without resume or identity no state of an attempt gains a record |
| Executor.TargetDownloadExecutor.WritePartialMetadata | cpp/src/download_resume.cpp:267-289 | the record is written from the start, and may be cut short in silence or by an exception |
| Executor.TargetDownloadExecutor.StreamDownload | cpp/src/target_download_executor.cpp:406-492 | transfer, closing and checks leave the trail and outcome of Stream, 416 branches included; StreamAcceptsIff and StreamRejectsIff say which outcome is whose |
| Executor.TargetDownloadExecutor.TryOnce | cpp/src/target_download_executor.cpp:305-371 | the try block leaves the trail, verdict and request of Tried, the subject of the acceptance and integrity theorems |
| Executor.TargetDownloadExecutor.AttemptOnce | cpp/src/target_download_executor.cpp:372-375 | the catch block removes the partial state after integrity and payload errors only |
| Outcomes.AnswerVerdict | cpp/src/target_download_executor.cpp:305-375 | the verdict on any answer below 400, each exactly when its reason holds |
| Outcomes.ErrorVerdict | cpp/src/target_download_executor.cpp:437-461 | the verdict on any answer of 400 or more, by status, body and curl's code |
| Outcomes.WrongAnswerIsThrownAway | cpp/src/target_download_executor.cpp:372-375 | an answer that ended well but has the wrong size or is no payload leaves neither ".part" nor record |
| Outcomes.GoodFileSurvivesItsReplacement | cpp/src/target_download_executor.cpp:348-375 | a good file whose replacement throws stays in ".part", and the failure is a local one |
| Executor.BoundedRetryBackoff | cpp/src/target_download_executor.cpp:54-66 | the doubling loop returns min(8, 2^(attempt-1)) |
| Executor.TargetDownloadExecutor.RetryWaitSeconds | cpp/src/target_download_executor.cpp:68-75 | a Retry-After of at least a second takes precedence over the backoff |
| Executor.TargetDownloadExecutor.RunAll | cpp/src/target_download_executor.cpp:298-404 | the retry loop leaves the trail, result, requests and waits of RunFrom, never falls through, and a busy lock ends it untouched |
| Outcomes.RunGoesOnIff | cpp/src/target_download_executor.cpp:372-392 | a run goes on exactly after an integrity failure, one of six statuses or one of nine curl codes, while retry_count and ten allow, and waits 1, 2, 4, then 8 s or what the server asks |
| Outcomes.FirstAnswerDecides | cpp/src/target_download_executor.cpp:406-492 | the same told from the first answer: which answers lead to a second attempt and which end the run |
| Outcomes.WithoutRequestTheRunEnds | cpp/src/target_download_executor.cpp:310-392 | a first attempt that sends no GET is the only one |
| Outcomes.RetryAfterIsObeyed | cpp/src/target_download_executor.cpp:68-75 | a Retry-After of n seconds is waited for, between one second and five minutes |
| Outcomes.ResultReports | cpp/src/target_download_executor.cpp:364-392 | the result carries the last attempt's verdict and number; a skip reports no attempt |
| Acceptance.AttemptAcceptsOnlyChecked | cpp/src/target_download_executor.cpp:320-375 | in every state of an attempt the output is the old one or a ".part" that an earlier state shows with the signature and the announced size: that of the GET's answer in unbounded arithmetic, or that of HEAD if no GET was sent |
| Acceptance.RunAcceptsOnlyChecked | cpp/src/target_download_executor.cpp:298-404 | the same of each attempt that the run really makes, and over the whole run: every output is the one found or a ".part" that one of those attempts checked; a run that does not download leaves the output's bytes unchanged if no rollback rename of its attempts fails |
| Acceptance.SkipsIff | cpp/src/target_download_executor.cpp:494-541 | an attempt skips exactly when the output is valid for the size HEAD reports and is not to be overwritten |
| Acceptance.ValidationFailureRemovesPartial | README.md:375 | after an integrity or payload failure of the partial state there remains exactly what the last removal leaves behind in silence |
| Retry.RunIsBounded | cpp/src/target_download_executor.cpp:300-403 | a run makes 1 to retry_count+1 attempts, reports that number unless it skipped, and waits 1 to 300 s before each retry |
| Retry.BackoffRunSleepsAtMost63 | cpp/src/target_download_executor.cpp:54-75 | without Retry-After the waits are the backoffs in order and at most 63 s in all |
| Retry.RetriesAreUsedUp | cpp/src/target_download_executor.cpp:376-392 | a run that fails reports the error of the attempt that ended it, and if that was not attempt retry_count+1 the error is not retryable |
| Retry.HeadRejectionIsNotRetryable | cpp/src/providers/base.cpp:9-83 | a HEAD status error is never retryable: every retryable status continues without metadata |
| Retry.RejectedHeadEndsTheRun | cpp/src/target_download_executor.cpp:310-392 | a rejected HEAD ends the run with no GET, no wait and the disk untouched |
| ResumeProperties.RangeNeverGoesUnconditional | cpp/src/providers/base.cpp:40-54 | every GET of every run has either no Range or a Range followed by a non-blank If-Range |
| ResumeProperties.WithoutResumeNoRange | cpp/src/target_download_executor.cpp:547-552 | with resume off every request is for the whole file |
| ResumeProperties.ResumedBytesAreConserved | cpp/src/target_download_executor.cpp:463-491 | an accepted 206 keeps the old bytes as prefix, adds exactly the body, and start byte plus bytes written is the size the headers promise; its range starts at the start byte and ends below its total |
| ResumeProperties.ResumeDownloadsIff | cpp/src/target_download_executor.cpp:340-371 | an attempt that resumes reports a download exactly when the record is written, the answer is acceptable and no rename throws, and then the output is the kept bytes and the body |
| ResumeProperties.ShortRangeAcceptedIff | cpp/src/download_resume.cpp:185-260 | a let-through range that is short of its total is accepted exactly when nothing fails and the bytes fill the total that is checked in the end: its own, or the one a Content-Range trailer puts in its place; without such a trailer more bytes came than it announced and no Content-Length equals them |
| ResumeProperties.ShortRangeCanBeAccepted | cpp/src/target_download_executor.cpp:463-491 | "bytes 8-8/10" without Content-Length, followed by two bytes, is accepted |
| ResumeProperties.TrailerCanOverruleRange | cpp/src/http_client.cpp:57-88 | "bytes 8-8/10" with Content-Length 1 and one byte is accepted when a trailer says "bytes 8-8/9", whatever HEAD said |
| ResumeProperties.RefusedRangeRestarts | cpp/src/target_download_executor.cpp:437-453 | a 416 on a resume never promotes; without a body the partial state is removed twice and the next request starts at byte 0 unless both files survive, with a body ".part" stays |
| ResumeProperties.HalfAPartialRestarts | cpp/src/target_download_executor.cpp:547-602 | without the data or without the record, the next request is for the whole file |
| ResumeProperties.ErrorRunKeepsPartial | cpp/src/target_download_executor.cpp:98-104 | while all GETs answer 400 or more except 416, and records that are cut short in silence still match, each attempt asks for the same byte and ".part" keeps its bytes in every state |
| ResumeProperties.CutRecordRestarts | cpp/src/target_download_executor.cpp:340-342 | after such an answer the next request is the same one exactly if the rewritten record survives, and otherwise asks for the whole file |
| ResumeProperties.EmptyRecordIsLost | cpp/src/download_resume.cpp:267-289 | a record of which nothing was written does not survive |
| Resumption.CutAttemptIsResumed | cpp/src/target_download_executor.cpp:605-638 | a cut transfer keeps every byte it has, and the next attempt asks for exactly the rest under the recorded validator |
| Resumption.CutRunContinues | cpp/src/target_download_executor.cpp:372-390 | within one run, the request after a retryable cut starts where the cut happened |
| Resumption.CutKeepsBytesIff | cpp/src/target_download_executor.cpp:106-117 | a cut resume still has the old bytes exactly when the server resumed or had sent them again |
| Resumption.UnansweredResumeStartsOver | cpp/src/http_client.cpp:261-270 | a resume without any answer empties ".part", and the next plan starts over |
| Progress.RunFetchesEachByteOnce | cpp/src/target_download_executor.cpp:298-404 | over any number of cuts in one run, request k starts where the bytes so far end under the recorded validator, the answers together are the file with no byte sent twice, and the output is that file |
| Integrity.MatchedRecordIsVersion | cpp/src/download_resume.cpp:344-368 | whatever version a possibly torn record matches is the version it was written for |
| Integrity.KeptPartIsCurrent | cpp/src/target_download_executor.cpp:583-638 | a plan that keeps ".part" keeps a beginning of exactly the version HEAD described |
| Integrity.ResumedAnswerFits | cpp/src/target_download_executor.cpp:118-130 | a 206 that is let through continues the very version ".part" came from |
| Integrity.AttemptIsSound | cpp/src/target_download_executor.cpp:305-375 | every state of an attempt keeps the integrity invariant, and a download is one whole version that HEAD or GET met, provided no record is written beside another version's bytes |
| Splice.StaleRecordIsSoundIff | cpp/src/target_download_executor.cpp:340-342 | a full record written beside a ".part" that could not be removed leaves a sound disk exactly when those bytes are a beginning of the version it names |
| Splice.RecordedStateIsReached | cpp/src/target_download_executor.cpp:318-346 | the attempt passes through that disk |
| Splice.FailedRemovalCanSplice | cpp/src/utils.cpp:100-103 | one silent removal failure and a truthful server are enough for a reported download that is neither version |
| Splice.RecordCanBeOlder | cpp/src/target_download_executor.cpp:310-346 | with nothing failing, the record can name the version HEAD met while ".part" is of the one the GET met |
| History.HistoryIsSound | cpp/src/target_download_executor.cpp:298-492 | the invariant survives every history of runs, retries, cuts, crashes and content changes |
| History.SingleVersionIntegrity | cpp/src/target_download_executor.cpp:298-492 | in every reachable state the output is byte for byte one complete version or the file found at the start |
| History.FromScratchOutputIsAVersion | cpp/src/target_download_executor.cpp:298-492 | from an empty directory the output is always one complete version |
| History.DownloadIsCurrent | cpp/src/target_download_executor.cpp:345-371 | a run that reports a download delivers a version no older than the last one of the history before it |
| Durability.OutputIsNeverLost | cpp/src/utils.cpp:105-130 | over every compliant history, at every crash point, an output found at the start or a complete version is at the output or, if there is none, at the backup |
| Durability.DownloadIsNeverLost | cpp/src/target_download_executor.cpp:345-371 | once a run has reported a download, every later history leaves a complete version at the output or, if there is none, at the backup |
| Concurrency.ConcurrentRunsAreSerial | cpp/src/target_download_executor.cpp:298-308 | in every state of any interleaving of processes whose lock recoveries spare live owners, the files are those that a compliant history of single runs leaves |
| Concurrency.RunsAreNotDisturbed | cpp/src/target_download_executor.cpp:302-308 | no process finds the files other than it left them |
| Concurrency.RecheckedJointRunSpares | cpp/src/download_lock.cpp:309-326 | live owners are spared if whoever clears the lock path has just inspected it again |
| Concurrency.ConcurrentIntegrity | cpp/src/target_download_executor.cpp:298-492 | single-version integrity and durability hold for any number of processes at the same time |
| Convergence.UndisturbedStream | cpp/src/target_download_executor.cpp:406-492 | a full answer, from the planned byte or from the start, is accepted and completes exactly the server's bytes |
| Convergence.RecoveryConverges | cpp/src/target_download_executor.cpp:310-371 | after any history one undisturbed run ends on attempt 1 with exactly the server's bytes, or skips a valid output, and clears the partial state |
| Convergence.RecoveryIsAnEvent | cpp/src/target_download_executor.cpp:310-371 | an undisturbed run is itself a compliant event that can follow any history, so the integrity and recovery theorems apply to the same run |
| Lock.MutualExclusion | cpp/src/download_lock.cpp:302-417 | in every interleaving whose recoveries clear the lock path only while no live process owns a directory there, at most one live process owns the target, whatever the probes answer |
| Lock.ExclusionIffOwnersSpared | cpp/src/download_lock.cpp:302-408 | a run is of that kind exactly when whoever clears the path could create the directory next without there being two owners |
| Lock.RemovalKeepsExclusionIff | cpp/src/download_lock.cpp:325-326 | the same for one removal followed by a create: one owner exactly if no live process owned the directory |
| Lock.UndisturbedRecoveryExcludes | cpp/src/download_lock.cpp:302-333 | truthful probes and removals that hit what was inspected are of that kind |
| Lock.AtomicRecoveryExcludes | cpp/src/download_lock.cpp:302-381 | so are truthful probes with inspection and removal in one step |
| Lock.RecheckedRecoveryExcludes | cpp/src/download_lock.cpp:309-326 | so are removals at whose moment a truthful inspection does not refuse |
| Lock.TwoHoldersWithoutAtomicity | cpp/src/download_lock.cpp:305-325 | with the calls apart and truthful probes there is a run with two holders |
| Lock.TwoHoldersThroughLegacyFile | cpp/src/download_lock.cpp:336-373 | so there is when both recover an older release's lock file, through a removal that hits a directory still empty |
| Lock.InspectionSparesLiveOwner | cpp/src/download_lock.cpp:309-323 | a truthful inspection by any other process refuses whenever a live process owns the directory |
| Lock.AcquireAloneIff | cpp/src/download_lock.cpp:302-408 | an undisturbed process acquires exactly when it meets no living owner, no recent ownerless directory with peers, no flocked legacy file and no write failure |
| Lock.TargetFileLock.RecoverDirectory | cpp/src/download_lock.cpp:302-333 | the directory is kept and the process refused, or it is gone |
| Lock.TargetFileLock.RecoverFile | cpp/src/download_lock.cpp:336-381 | a flocked legacy file refuses the process, any other one is removed |
| Lock.TargetFileLock.Acquire | cpp/src/download_lock.cpp:386-408 | the constructor recovers a directory, recovers a legacy file, creates and writes in order and is acquired only at the end; AcquireAloneIff says when |
| Lock.TargetFileLock.Release | cpp/src/download_lock.cpp:410-417 | the destructor removes the directory exactly when the lock was acquired |
| LockOwner.LoadLockOwnerPid | cpp/src/download_lock.cpp:39-61 | the reading loop computes OwnerOf, the reader of the next two lemmas |
| LockOwner.OwnerRoundTrip | cpp/src/download_lock.cpp:39-61 | a written pid is read back for every pid an int holds |
| LockOwner.OtherLinesAreSkipped | cpp/src/download_lock.cpp:46-58 | lines with another label are skipped whatever they contain |
| LockOwner.SignedPids | cpp/src/download_lock.cpp:47-55 | a negative or zero pid names no process, a plus sign is ignored |
| LockOwner.CutOwnerNamesAnotherPid | cpp/src/download_lock.cpp:287-296 | an owner file cut inside its number reads as a different pid or none |
| CommandLine.QuoteWindowsArg | cpp/src/process_runner.cpp:73-109 | the backslash-counting loop computes QuoteArg, which the parser reads back |
| CommandLine.QuotedIff | cpp/src/process_runner.cpp:73-85 | an argument is quoted exactly if it is empty or has a blank, tab, line break, vertical tab or quote mark |
| CommandLine.MakeWindowsCommandLine | cpp/src/process_runner.cpp:111-127 | the index loop computes CommandText, which the parser reads back |
| CommandLine.OneBlankEach | cpp/src/process_runner.cpp:111-127 | arguments are separated by one blank and nothing else |
| CommandLine.ArgumentsRoundTrip | cpp/src/process_runner.cpp:73-127 | parsing the printed arguments by the documented rules gives back exactly those arguments, for every list |
| CommandLine.CommandLineRoundTripIff | cpp/src/process_runner.cpp:111-127 | the whole command line is parsed back exactly when the program name is plain, under each of three rules for doubled quote marks |
| Targets.Years | cpp/src/models.cpp:219-229 | the loop lists every year from start to end once, in order |
| Targets.BuildTargets | cpp/src/providers/psl.cpp:14-51 | refusals come in the source's order; otherwise exactly one target per year, in order, each the one TargetIsNamedAfterYear describes |
| Targets.RequestAcceptedIff | cpp/src/models.cpp:137-189 | exactly which requests are accepted: provider, years given or not, within the dataset's years, at most 500 files |
| Targets.TargetIsNamedAfterYear | cpp/src/models.cpp:22-32 | the target of a year has that year in the place of the first token, in its name, its address and its path, and the year can be read back |
| Targets.TargetOfNegativeYear | cpp/src/models.cpp:22-32 | the same with a sign |
| Targets.FixedNames | cpp/src/models.cpp:241-277 | a single file keeps its name, and the four sidecars are named after the output |
| Targets.MakeDownloadTargets | cpp/src/models.cpp:241-265 | every remote target gets its output path |
| Targets.YearsNeverCollideIff | cpp/src/models.cpp:22-32 | two years share no path, whatever the pattern's suffix, exactly when the pattern has the year token |
| Targets.PathsNeverCollide | cpp/src/models.cpp:267-277 | no output, .part, .part.meta, .lock or .replace-backup path is shared between or within the targets of a request |
| Targets.TargetsOf | cpp/src/providers/psl.cpp:37-48 | an accepted per-year request gives end minus start plus one targets in increasing year order |

## Left out

- Power loss: a crash stops the process between any two bytes or calls, but what was written stays in order.
- Local errors other than a throwing lock, open, write, flush, metadata write or rename, and a removal that fails in silence; directories, symbolic links and permissions.
- libcurl itself: connections, timeouts, TLS, redirects and the Windows IPv4 retry. Curl's result code and the status, headers and chunks it hands over are inputs.
- `process_is_alive`, `has_running_peer_process`, `flock`, file times and clocks: inputs, with one-sided truth assumed where the lock theorems say so. An older release that holds a legacy lock file is seen only through the answer of `flock`; the Windows build, which leaves such a file alone, is not modelled.
- What a process does to files that another one has changed under it: in the joint runs it may then leave anything, and it is proved not to happen.
- The status parsed from the header lines and the response code curl reports are one value here; header fields at the start and at the end of a transfer are two.
- `remove_all` on a condemned lock directory is one step; on release it is two, the owner file and then the directory.
- Progress display, log messages and the texts of error messages; `total_size_` and `resumed_transfer_` of the handler, which only feed the display.
- Path normalisation: paths are compared as text, and case-insensitive file systems or ".." in a filename pattern are not considered.
- The overflow of a 32-bit year span, which is undefined behaviour in C++; years are unbounded integers here.
- UTF-8 to UTF-16 conversion of command-line arguments, and arguments containing the NUL character.
- TOML configuration, the dataset catalogue, command-line options and the Copernicus Marine wrapper: plumbing and table look-ups.
- The NetCDF and HDF5 formats: the program looks only at size and leading bytes.
