# DevBridge: a verified model of the print path

DevBridge moves print jobs from a server to the computer beside a printer and
prints them there exactly once. This project models the parts of it where that
promise is kept or broken, and proves what they promise, in Dafny.

`dafny verify dfyconfig.toml` checks everything.

## The parts

| file | what it models |
|---|---|
| `Common.dfy`, `Text.dfy` | bytes and big-endian integers; the text operations of the parsers |
| `PrintEvents.dfy`, `PrintBackend.dfy` | job states, audit events and their emitter; the decisions every backend shares |
| `DirectIpp.dfy` | the direct_ipp backend: pages, polling, cancellation, outcomes |
| `Receiver.dfy` | what a client reports of a print task |
| `Delivery.dfy` | what a job's requests bring to the printer |
| `Dispatch.dfy`, `Retries.dfy` | the server's job states, completions, backoffs, sending |
| `NeverResent.dfy` | client and server together: a job the printer accepted is not sent again |
| `InFlight.dfy` | the in-flight slots, the outer timeout and the print lock |
| `Relay.dfy` | server, stream and client together: how often a streamed job is printed |
| `IppCodec.dfy`, `FakePrinterIpp.dfy` | the client's IPP codec, and the fake printer's parser and answer |
| `Urf.dfy`, `RasterMerge.dfy` | the URF decoder and the raster merger |
| `PdfPages.dfy`, `PdfInfo.dfy`, `GsPlan.dfy`, `Ghostscript.dfy` | page geometry, run planning, the page listing, rendering and merging |
| `Download.dfy` | chunked, resumable download |
| `StreamPeers.dfy` | the job streams of the server: addresses, online flags, counter |
| `Tray.dfy` | the tray's job list and filter |
| `DeviceJobs.dfy`, `DispatchCycles.dfy` | the device-job contract and the dispatch-cycle count of the end-to-end suite |

## How the model is built

What the source does step by step is a method here, with the source's loops and
branches: the backend, the dispatch service, the emitter, the registries, the
tracker and the merger are classes or work on arrays. Every such method is
proved to compute a specification function (`SendFrom`, `Next`, `Parsed`,
`Decoded`, `Merged`, `Plan`, `AfterAttempt`, ...), and the lemmas are about those
functions. Protocols are step systems: a run is any sequence of steps, so every
interleaving, loss, repetition and delay that the steps allow is covered.

Whatever comes from outside is a parameter that the theorems quantify over: the
printer's answers, the clock and the cancel instants of a page (`PageEnv`), what
a Ghostscript call does (a function of its arguments), the hash (any function),
the bytes and chunks that arrive. Integer widths are written out where they
matter: 16-bit lengths, 32-bit counts and job ids, the signed reading of
`copies`, the saturating backoff.

## What the proofs found

Some properties one would like are false of the code. The code is modelled as it
is, and the condition under which it does meet the property is proved.

- **A job can be streamed, and printed, twice with no failure at all.** Sending does
  not move the job out of queued, so its id, if taken again (after a reconnect,
  say), is streamed again if and only if nothing reported on it since it was last
  put into the queue (`StreamedTwiceIff`). The receiver takes the duplicate only after the
  first task is over, and the in-flight slot refuses it only while an abandoned
  task unwinds (`RefusedIffStillUnwinding`); so it is printed again even if the
  first print was confirmed (`ConfirmedJobIsPrintedAgain`).
- **An accepted job can be retried.** When the polling client cannot be built, or
  the task panics, after the printer's acceptance was read, the report is a plain
  failure and the server retries: exactly then, or when the printer gave page 1 up
  (job-state 7 or 8), can it be sent again (`ResentIffFailedAfterAcceptance`,
  `AcceptedJobIsSentAgain`).
- **An accepted job can be sent again before its report.** Each plain failure
  schedules its own retry, so a job streamed twice can have two waiting. The second
  backoff requeues the job even while the third delivery is being printed
  (`AcceptedJobIsSentAgainBeforeItsReport`); exactly a waiting retry does that
  (`SentAroundReportIff`), or the reaper below the retry limit
  (`ReaperSendsAgainIff`).
- **A late message can end a job's retries.** A `failed` of the attempt before that
  arrives after the requeue leaves the job Failed with no retry waiting
  (`LateMessageStrandsTheJob`; exactly which messages: `StatusKeepsItsWayIff`).
- **Set-up failures leave no `failed` event**: an unreadable page file or an HTTP
  client that cannot be built (`SetupFailed` in `JobOutcome`).
- **Finished is closed, single finished states are not**: Unconfirmed can still
  become Completed, and Completed Unconfirmed (`MovesAmongFinished`).
- **A connected machine can be shown offline.** A cleanup whose check came before
  a newer stream registered writes offline after that stream went online
  (`OvertakenCleanup`); the machine stays so until its next heartbeat.
- **The raster decoder counts dark values outside the page** when a run or a
  repeated line overshoots (`PageIsCountedIff`, `OvershootIsCounted`); with the
  guards it lacks it counts right (`FittingPageIsExact`).
- **A download resumes only after the receiver died.** The receiver removes the spool
  file at the end of every job, failed downloads included
  (`LivingReceiverStartsAnew`).
- **`copies` of 2^31 and more come back negative**, and an attribute whose name or
  value has 65536 bytes or more does not come back (`CopiesReadBackIff`,
  `WrittenAttributeComesBackIff`).
- **The client's parser is laxer than the fake printer's**
  (`ClientParserTakesMore`).

## Model

| member | source | states |
|---|---|---|
| `DirectIpp.JobOutcome` | crates/devbridge-client/src/backend_direct_ipp.rs:509-554 | For every page count from 1, every sequence of printer answers and every cancel instant: a job succeeds if and only if of every page some poll read job-state 9 - in a round that saw no cancel, from an answer that does not say that the job is unknown (0x0406), after rounds that read states other than 7, 8 and 9 before the deadline; it fails plainly if and only if its first page does, and is unconfirmed otherwise; the one `completed`, `unconfirmed` or `failed` event is the last one and the only one of the three kinds (after a failed set-up there is none) |
| `DirectIpp.JobAcceptance` | crates/devbridge-client/src/backend_direct_ipp.rs:292-318 | The events of a job show an acceptance if and only if the success answer to page 1 was read |
| `DirectIpp.RetriedDespiteAcceptance` | crates/devbridge-client/src/backend_direct_ipp.rs:338-446 | An accepted job is reported as a plain failure, hence retried, if and only if a poll of page 1 read job-state 7 or 8 in such a round, or the polling client could not be built |
| `DirectIpp.LostIff` | crates/devbridge-client/src/backend_direct_ipp.rs:338-446 | Each reason for which the end of an accepted page is not learned, as it shows in the round that ends the poll: the cancel with the last state known, a request that fails, an answer that cannot be read, status 0x0406, a state not final after the deadline |
| `DirectIpp.JobTimeline` | crates/devbridge-client/src/backend_direct_ipp.rs:509-554 | The whole job in the printer's terms: every printed page left `sending`, `acknowledged`, `verified` with job-state 9 and the printer's number, and `sent` or `completed`, in page order; the first page that was not printed gives the error its cause - each cause exactly as it shows in what happened to that page - and the event that tells it |
| `DirectIpp.AcceptedPagesArePrinted` | crates/devbridge-client/src/backend_direct_ipp.rs:522-552 | An `unconfirmed` after accepted pages names the right page: all pages before it were confirmed printed, that one was not |
| `DirectIpp.SuccessEvidence` | crates/devbridge-client/src/backend_direct_ipp.rs:404-415 | A success carries, as its last verification, job-state 9 and the printer's job id of the LAST page |
| `DirectIpp.PollIsBounded` | crates/devbridge-client/src/backend_direct_ipp.rs:338-446 | For every clock the poll loop ends, after at most timeout / 2 s + 2 rounds, with the end of its first deciding round |
| `DirectIpp.Backend.PollJobCompletion` | crates/devbridge-client/src/backend_direct_ipp.rs:338-446 | The loop returns the outcome and emits the events of that first deciding round, which `JobOutcome`, `LostIff` and `JobTimeline` read off the printer's answers, and posts one Get-Job-Attributes a round, numbered from 101 and at most timeout / 2 s + 2 |
| `DirectIpp.Backend.SendIppJob` | crates/devbridge-client/src/backend_direct_ipp.rs:245-330 | One page: what is posted (the Print-Job built from the job's URI, format, name and copies with the page's bytes behind it, then the polls), the result and the events of every branch |
| `DirectIpp.Backend.SendPages` | crates/devbridge-client/src/backend_direct_ipp.rs:509-554 | The page loop returns, emits and posts what the specifications `SendFrom` and `PostsFrom` say, which `JobOutcome`, `PagesArrive` and the lemmas after them judge |
| `Delivery.PagesArrive` | crates/devbridge-client/src/backend_direct_ipp.rs:509-554 | Whatever the printer answers, the fake printer's parser understands every request a job posts; the documents it reads are the pages' files, byte for byte, each once and in page order; no page is given to it before the page before was confirmed printed, every page that may follow and can be posted is, and after a success they are all the pages |
| `Delivery.PageAsks` | crates/devbridge-client/src/backend_direct_ipp.rs:245-446 | What the printer reads of one page: a Print-Job (0x0002) with the job's URI, format, name and copies under their names and the page's bytes, then one Get-Job-Attributes (0x0009) for the number the printer gave in every round up to the deciding one, except in a round that sees the cancel; nothing of a page that is not posted |
| `PrintBackend.BailIfCancelled` | crates/devbridge-client/src/print_backend.rs:53-72 | A cancelled job ends plainly with exactly one `failed` event, any other is untouched |
| `PrintEvents.EventEmitter.Emit` | crates/devbridge-core/src/job_event.rs:115-145 | The acceptance flag and the verification pair are always those of the events emitted so far |
| `PrintEvents.LastVerificationIs` | crates/devbridge-core/src/job_event.rs:115-145 | The verification kept is that of the last event that is a `verified` or names a method, and none without one |
| `NeverResent.AcceptedJobIsNeverResent` | crates/devbridge-server/src/dispatch.rs:406-577 | Once the printer's acceptance was read, the report of the task finishes the job on the server in whatever state it is, and in every later run - late messages and completions, backoffs, the reaper, ids left in channels - the job is not sent again and its retry count stays; excluded are exactly the tasks that fail after acceptance, and a new push of the same id |
| `NeverResent.NotSentAgainOnceHeardOf` | crates/devbridge-server/src/dispatch.rs:764-799 | The same from the first status message that moved the job out of queued, if no older retry of the job is waiting then: neither before the report, in any run of its messages without the reaper, nor in any run after it is the job sent again |
| `NeverResent.SentAroundReportIff` | crates/devbridge-server/src/dispatch.rs:406-577 | The whole promise with its exact condition: from the first status message of an accepted task that moved its job out of queued, through its report and in every run after it, the job can be sent again if and only if it is unfinished and an older retry of it is still waiting |
| `NeverResent.SentQuietlyIff` | crates/devbridge-server/src/storage.rs:284-304 | Whatever task it has: before a report, a job that left the queue can be sent by its own messages, backoffs and deliveries if and only if it is unfinished and a retry of it is waiting - that backoff requeues even a job that is being printed |
| `NeverResent.ReaperSendsAgainIff` | crates/devbridge-service/src/runtime.rs:201-224 | With the reaper among the steps, it can if and only if it is unfinished and a retry of it waits, the reaper already found it stale, or it is below its retry limit - accepted or not |
| `NeverResent.AcceptedJobIsSentAgainBeforeItsReport` | crates/devbridge-server/src/dispatch.rs:514-568 | The run that gets there: two deliveries, two plain failures, one backoff, a third delivery and its `sending` leave the job Printing with a retry waiting, and an accepted job can be sent a fourth time before its report |
| `NeverResent.ReportIsPlainIff` | crates/devbridge-client/src/print_backend.rs:221-257 | A task's report lets the server retry if and only if no acceptance was read by then, or the task failed after acceptance (page 1 given up, polling client not built, panic) |
| `NeverResent.PlainReportIsResent` | crates/devbridge-server/src/dispatch.rs:496-575 | Why the exceptions matter: a plain report below the retry limit is followed by a run that sends the job again |
| `NeverResent.ResentIffFailedAfterAcceptance` | crates/devbridge-server/src/dispatch.rs:406-577 | The promise and its exceptions joined: after the report of an accepted task of an unfinished job below the retry limit, some run without a push sends the job again if and only if the task failed after acceptance |
| `NeverResent.AcceptedJobIsSentAgain` | crates/devbridge-client/src/backend_direct_ipp.rs:338-446 | Such a task: the printer answers that it took the page as its job 1 and the polling client cannot be built; the task has an acceptance and its job can be sent again |
| `NeverResent.FailingTaskSaysNothingFinal` | crates/devbridge-client/src/receiver.rs:667-685 | No message of a plainly failing task finishes the job: while its completion is owed, all of them are harmless to the retries |
| `NeverResent.LateUnconfirmedMessageStopsTheRetry` | crates/devbridge-server/src/dispatch.rs:770-799 | A late `unconfirmed` status message finishes a job whose retry is already scheduled, and no backoff sends it again |
| `NeverResent.NoTransientFailure` | crates/devbridge-server/src/dispatch.rs:770-807 | A job that succeeds or ends unconfirmed is at no moment stored Failed and never scheduled for retry, whatever part of its messages arrives in whatever order with its completion |
| `NeverResent.OnlyTheLastEventFinishes` | crates/devbridge-client/src/print_backend.rs:95-110 | Before the task's last event arrives, its status messages leave the job unfinished: a confirmed page does not complete the job |
| `NeverResent.StreamedTwiceIff` | crates/devbridge-server/src/dispatch.rs:710-759 | Sending does not move a job. In any run at all - completions, backoffs, the reaper and new pushes of the job included - a job taken again is streamed again if and only if nothing reported on it since it was last put into the queue |
| `NeverResent.StreamedTwice` | crates/devbridge-server/src/queue.rs:219-237 | Two deliveries of a queued id with no message between them stream the job twice, although nothing failed |
| `Dispatch.FinishedIsClosed` | crates/devbridge-server/src/dispatch.rs:764-769 | Each step leaves a completed, cancelled or unconfirmed job in that set if and only if the step is not a new push of its id; it is then neither sent nor counted as a retry |
| `Dispatch.MovesAmongFinished` | crates/devbridge-server/src/dispatch.rs:406-507 | The moves inside the finished set, exactly: a success completes, an unconfirmed completion unconfirms, a failure turns completed into unconfirmed, everything else leaves the state |
| `Dispatch.FinishedIsNeverSent` | crates/devbridge-server/src/dispatch.rs:710-759 | After the step that finishes a job no later step of any run sends it |
| `Dispatch.AttemptEnds` | crates/devbridge-server/src/dispatch.rs:406-466 | With no retry pending, an attempt that succeeds leaves the job Completed and an unconfirmed one leaves it Unconfirmed, with its retry count unchanged, for every interleaving and any loss of its status messages |
| `Dispatch.DispatchService.ApplyStatusUpdate` | crates/devbridge-server/src/dispatch.rs:770-799 | A status message stores its event and moves the job only while the job is not finished; nothing else changes |
| `Dispatch.DispatchService.CompleteJob` | crates/devbridge-server/src/dispatch.rs:369-578 | The whole new server state of every kind of completion, the scheduled retry included; its delay and its audit events are `BackoffDoubles`' and `CompletionIsLogged`'s |
| `Dispatch.CompletionIsLogged` | crates/devbridge-server/src/dispatch.rs:369-507 | What a completion adds to the audit trail: a report by another client than the one routed to, the outcome reported, and that a failure of a completed job makes it unconfirmed |
| `Dispatch.FailureSchedules` | crates/devbridge-server/src/dispatch.rs:496-575 | A plain failure of an unfinished job makes it failed and schedules one retry exactly below the limit |
| `Dispatch.WireStates` | crates/devbridge-server/src/dispatch.rs:770-799 | The stored state of every integer on the wire, and that the event's unconfirmed overrides it |
| `Dispatch.StatusIsLogged` | crates/devbridge-server/src/dispatch.rs:770-799 | A status message adds the event it carries, if its job is known |
| `Dispatch.DispatchService.SendJob` | crates/devbridge-server/src/dispatch.rs:710-759 | Only a job stored as queued is emitted, and emitting does not move it |
| `Dispatch.DispatchService.UpdateStateUnlessTerminal` | crates/devbridge-server/src/storage.rs:237-262 | The conditional update leaves finished jobs alone |
| `Dispatch.DispatchService.UnconfirmCompleted` | crates/devbridge-server/src/storage.rs:264-282 | Only a completed job is unconfirmed |
| `Dispatch.DispatchService.RequeueJob` | crates/devbridge-server/src/storage.rs:284-304 | Only a failed or in-flight job is requeued, with one more retry counted; an unknown job is an error of its own |
| `Dispatch.DispatchService.ElapseBackoff` | crates/devbridge-server/src/dispatch.rs:563-568 | When a backoff elapses its job is requeued only if it is still failed or in flight |
| `Dispatch.DispatchService.FindStale` | crates/devbridge-service/src/runtime.rs:210-212 | The reaper's search takes a job only in flight, written before the cutoff and below the retry limit |
| `Dispatch.DispatchService.Reap` | crates/devbridge-service/src/runtime.rs:212-221 | What it found it requeues later, whatever happened to the job since, and only if it is then failed or in flight |
| `Dispatch.BackoffRequeuesIff` | crates/devbridge-server/src/storage.rs:284-304 | An elapsed backoff is consumed and requeues its job, with one more retry, exactly if that failed or is downloading or printing |
| `Dispatch.ReaperRequeuesIff` | crates/devbridge-service/src/runtime.rs:201-224 | The reaper finds exactly jobs that are downloading or printing below their limit, and requeues one it found exactly if it failed or is in flight by then |
| `Retries.RetriesAreBounded` | crates/devbridge-server/src/dispatch.rs:496-575 | A new job that fails plainly at every attempt, whatever harmless status messages arrive, is sent at most max_retries + 1 times; once settled, exactly that often, ending Failed with retry_count = max_retries, after backoffs that begin with the configured delay and double up to the seventh, as far as 64 bits go |
| `Retries.StatusKeepsItsWayIff` | crates/devbridge-server/src/dispatch.rs:770-799 | A status message leaves such a job on its way if and only if it is harmless: while a completion is owed, it does not finish the job; during a backoff, it leaves it to be requeued; otherwise it stores the state that is stored |
| `Retries.LateMessageStrandsTheJob` | crates/devbridge-server/src/dispatch.rs:764-799 | A message that arrives after the requeue and stores anything but queued - a late `failed`, say - leaves the job with no retry waiting: no later run of messages, deliveries and other jobs' steps sends it again, whatever retries it had left |
| `Retries.DelaysGrowToACap` | crates/devbridge-server/src/dispatch.rs:536-553 | The backoff delays never decrease, never exceed 64 times the base delay and saturate at 64 bits |
| `Retries.BackoffDoubles` | crates/devbridge-server/src/dispatch.rs:536-553 | The first delay is the configured one, each of the next six twice the one before it or the largest 64-bit number, and the rest are the same |
| `Receiver.StoredStateOf` | crates/devbridge-client/src/receiver.rs:667-685 | What each stage a client sends becomes on the server: downloading, printing, completed, failed and queued are each exactly the stored state of their stages, and `unconfirmed`, FAILED on the wire, is stored as unconfirmed |
| `Receiver.StageTravelsAs` | crates/devbridge-client/src/receiver.rs:667-685 | The number of every stage on the wire; `unconfirmed` has none of its own |
| `Receiver.ReportSays` | crates/devbridge-client/src/receiver.rs:460-556 | A confirmed print is reported as a success, one known to the printer as unconfirmed - a timed-out task exactly if the printer had accepted - and any other as a failure; the client's own history says the same |
| `InFlight.Reachable` | crates/devbridge-client/src/inflight.rs:48-118 | In every reachable state the jobs in flight are exactly those of live tasks, no two live tasks share a job, and at most one task - none while the Odoo source prints - holds the printer |
| `InFlight.SlotIsKept` | crates/devbridge-client/src/inflight.rs:155-207 | Until it drops its own guard a task keeps its slot, through its timeout and whatever other tasks do, and every further dispatch of its job is refused |
| `InFlight.DropFreesOnlyItsSlot` | crates/devbridge-client/src/inflight.rs:99-118 | Dropping a guard frees that task's slot and no other's |
| `InFlight.InFlightJobs.TryBegin` | crates/devbridge-client/src/inflight.rs:48-73 | A slot is granted if and only if the job is not in flight, and then taken |
| `InFlight.PrintLock.TryHold` | crates/devbridge-client/src/print_lock.rs:36-45 | The printer is taken if and only if nobody holds it |
| `InFlight.PrinterIsTakenIff` | crates/devbridge-client/src/print_lock.rs:36-45 | The printer goes to a waiting task, or the Odoo source, exactly if nobody has it, and each gives back only its own |
| `InFlight.DispatchTakesASlot` | crates/devbridge-client/src/inflight.rs:155-207 | A dispatched job not in flight gets a waiting task and its slot; one in flight is refused and gets neither |
| `InFlight.PrintTasks.Begin` | crates/devbridge-client/src/inflight.rs:155-207 | The task registry over one slot set and one lock makes the step `Dispatch` |
| `InFlight.PrintTasks.TimeOut` | crates/devbridge-client/src/inflight.rs:155-207 | The outer timeout only signals the cancel: slots and printer stay as they are |
| `InFlight.PrintTasks.Hold` | crates/devbridge-client/src/print_lock.rs:36-45 | The print task takes the printer as the step `TakePrinter` says |
| `InFlight.PrintTasks.Leave` | crates/devbridge-client/src/print_lock.rs:36-45 | Leaving the printer frees it and no slot |
| `InFlight.PrintTasks.Finish` | crates/devbridge-client/src/inflight.rs:99-118 | The guard's drop makes the step `DropGuard` |
| `Relay.Reachable` | crates/devbridge-client/src/receiver.rs:303-469 | From the start, in every run of server, stream and client, the in-flight invariant holds and every live task but the one the receiver waits for was abandoned by its timeout |
| `Relay.RefusedIffStillUnwinding` | crates/devbridge-client/src/inflight.rs:155-207 | A job taken from the stream is refused if and only if an abandoned task of it has not unwound yet, not because it was streamed or printed before |
| `Relay.PrintedAsOftenAsStreamed` | crates/devbridge-client/src/receiver.rs:303-469 | Conservation: in every run a job is printed as often as it was streamed, less the messages on their way, waiting for the printer, lost with a broken stream or a download, or refused |
| `Relay.EveryMessageIsPrinted` | crates/devbridge-client/src/receiver.rs:303-469 | Unless the timeout abandons a task of it, every message of the job that reaches the printing is printed: streamed twice, printed twice |
| `Relay.ConfirmedJobIsPrintedAgain` | crates/devbridge-client/src/receiver.rs:303-469 | A queued job that is streamed twice to an idle client is printed, confirmed, stored as completed, and printed again |
| `IppCodec.BuildPrintJobRequest` | crates/devbridge-client/src/ipp_codec.rs:123-173 | The built request is, byte for byte, the encoding of its attribute list, which `PrintJobSays` and `PrintJobOnTheWire` read by name and by byte |
| `IppCodec.BuildGetJobAttributesRequest` | crates/devbridge-client/src/ipp_codec.rs:175-203 | The same for Get-Job-Attributes |
| `IppCodec.ParseResponse` | crates/devbridge-client/src/ipp_codec.rs:212-281 | The parser computes the specification `Parsed`, for every input, error cases included |
| `IppCodec.PrintJobRoundTrip` | crates/devbridge-client/src/ipp_codec.rs:123-173 | Parsing a built request followed by ANY document bytes returns the operation, the request id and exactly the written attributes |
| `IppCodec.PrintJobSays` | crates/devbridge-client/src/ipp_codec.rs:123-173 | Read back, the request is operation 0x0002, and the first attributes named printer-uri, document-format and job-name are the URI, the format and the job name given, charset and language utf-8 and en-us, each with its tag |
| `IppCodec.GetJobAttributesSays` | crates/devbridge-client/src/ipp_codec.rs:175-203 | Read back, the poll is operation 0x0009 for the printer's URI, and its job-id is the one given, for every 32-bit number |
| `IppCodec.PrintJobOnTheWire` | crates/devbridge-client/src/ipp_codec.rs:123-173 | The groups on the wire (section 3.1.1 of RFC 8010): version 1.1 and the operation, the operation attributes behind 0x01, the copies alone behind 0x02, then 0x03 |
| `IppCodec.AnswerSays` | crates/devbridge-client/src/ipp_codec.rs:44-82 | An integer attribute of an answer is the four bytes of the first attribute of that name, big-endian and signed, and 0 if it is missing or has another length; success is a status below 0x0100 |
| `IppCodec.FirstNamedIff` | crates/devbridge-client/src/ipp_codec.rs:70-73 | Looking a name up finds the first attribute of that name, or none |
| `IppCodec.Utf8Iff` | crates/devbridge-client/src/ipp_codec.rs:212-281 | The name check accepts a byte string if and only if it is the UTF-8 encoding (section 3 of RFC 3629) of some text |
| `IppCodec.MessageRoundTrip` | crates/devbridge-client/src/ipp_codec.rs:212-281 | The same for every list of carried attributes and groups (sections 3.1.4 and 3.1.5 of RFC 8010) |
| `IppCodec.WrittenAttributeComesBackIff` | crates/devbridge-client/src/ipp_codec.rs:95-103 | A written attribute with a non-empty UTF-8 name, whatever follows it, comes back if and only if its name and value are under 65536 bytes |
| `IppCodec.CopiesReadBackIff` | crates/devbridge-client/src/ipp_codec.rs:105-109 | `copies` (section 5.2.5 of RFC 8011) is written if and only if it is above 1, reads back as given if and only if it is then below 2^31, and otherwise reads back negative |
| `IppCodec.CutMessage` | crates/devbridge-client/src/ipp_codec.rs:212-281 | A message cut anywhere parses if and only if the cut is at an attribute boundary, and then to the attributes before it |
| `IppCodec.CutAttributeTells` | crates/devbridge-client/src/ipp_codec.rs:212-281 | An attribute cut after any number of bytes is refused with the error that names the part that is not there, or that the name is not UTF-8 |
| `FakePrinterIpp.ParseIppRequest` | crates/devbridge-e2e/src/direct_ipp.rs:108-158 | The fake printer's parser computes its specification for every body, errors included |
| `FakePrinterIpp.WrittenMessageIsAccepted` | crates/devbridge-e2e/src/direct_ipp.rs:108-158 | A written message with any document behind it is accepted with its code, its request id, exactly its attributes, and the document byte for byte |
| `FakePrinterIpp.PrintJobArrives` | crates/devbridge-e2e/src/direct_ipp.rs:108-158 | So for Print-Job, with every printer URI, format and name under 65536 bytes, every number of copies and every document: the whole attribute list and the document |
| `FakePrinterIpp.GetJobAttributesArrives` | crates/devbridge-client/src/ipp_codec.rs:175-203 | Get-Job-Attributes reads back in both parsers: operation, request id and exactly the written attributes, without a document |
| `FakePrinterIpp.PrintJobIsUnderstood` | crates/devbridge-e2e/src/direct_ipp.rs:108-158 | Read by name at the fake printer: printer-uri, document-format, job-name and copies are those given, and the document is the one sent |
| `FakePrinterIpp.GetJobAttributesIsUnderstood` | crates/devbridge-e2e/src/direct_ipp.rs:108-158 | Read by name: the printer's URI, and as job-id the four bytes of the number asked for |
| `FakePrinterIpp.CutRequest` | crates/devbridge-e2e/src/direct_ipp.rs:108-158 | A request cut short anywhere is refused, and the error says where: before its ninth byte, between two attributes, or inside one |
| `FakePrinterIpp.RequestAcceptedIff` | crates/devbridge-e2e/src/direct_ipp.rs:108-158 | It accepts exactly the bodies of at least nine bytes whose frames reach the end tag and whose first attribute is named |
| `FakePrinterIpp.ParsersAgree` | crates/devbridge-e2e/src/direct_ipp.rs:108-158 | A body it accepts is accepted by the client's parser if and only if its names are valid UTF-8, and then with the same code, request id and (name, value) list, further values included |
| `FakePrinterIpp.ClientParserTakesMore` | crates/devbridge-client/src/ipp_codec.rs:225-274 | The converse fails: the client's parser also takes a message without an end tag and one that starts with a nameless value |
| `FakePrinterIpp.IppResponse` | crates/devbridge-e2e/src/direct_ipp.rs:169-185 | The answer is the encoding of its attribute list |
| `FakePrinterIpp.AnswerReadBack` | crates/devbridge-e2e/src/direct_ipp.rs:169-185 | The client reads back exactly the job id and job state (section 5.3.7 of RFC 8011) that were written, for every 32-bit value |
| `FakePrinterIpp.AnswerSays` | crates/devbridge-e2e/src/direct_ipp.rs:169-185 | The whole answer as the client reads it: charset, language, job-id, job-state and the reasons `none`, each with its tag, in this order |
| `Urf.UrfPages` | crates/devbridge-e2e/src/urf.rs:24-99 | For every byte string the decoder's loops refuse what the format refuses, and otherwise return the header's count and, for every page, the bits per pixel, width, height and resolution that stand in its own header - behind the file header, or where the page before it ends - and the number of values below 128 in its fully expanded raster |
| `Urf.HeaderIsNeeded` | crates/devbridge-e2e/src/urf.rs:24-36 | A document is refused without its twelve bytes or its magic `UNIRAST`, and complete, with no pages, if it is just those twelve |
| `Urf.PageIsRefusedIff` | crates/devbridge-e2e/src/urf.rs:37-60 | A page is refused if and only if its 32 header bytes are not there, its bits per pixel are not whole bytes, its width is 0, or its lines run out of data |
| `Urf.CountLine` | crates/devbridge-e2e/src/urf.rs:64-92 | One line: the running count over repeats, literals and white fill is the dark count of the expanded line, whose end is the position reached |
| `Urf.MovedPage` | crates/devbridge-e2e/src/urf.rs:37-97 | A page consumes exactly its own bytes: the same bytes decode to the same raster wherever they stand and whatever surrounds them |
| `Urf.MovedPages` | crates/devbridge-e2e/src/urf.rs:37-97 | Pages that fill a document decode unchanged inside any other document, and decoding goes on right behind them |
| `Urf.RastersFillTheirPages` | crates/devbridge-e2e/src/urf.rs:60-96 | Every decoded raster has all its rows, each at least its width long; a row overshoots by less than 128 values and a page by less than 256 rows, so the 32-bit counters do not wrap up to 2^32 - 257 |
| `Urf.DarkIsInsideIff` | crates/devbridge-e2e/src/urf.rs:11-19 | On the expanded rows: the dark total is that of the page itself if and only if no overshooting value is dark |
| `Urf.PageIsCountedIff` | crates/devbridge-e2e/src/urf.rs:60-96 | On the bytes: an accepted page is counted right if and only if every value its runs hold past the width is at least 128, and every line repeated past the last row holds no value below 128 |
| `Urf.PagesAreCountedIff` | crates/devbridge-e2e/src/urf.rs:24-99 | Every page of an accepted document is counted right if and only if that holds of the bytes of each |
| `Urf.FittingPageIsExact` | crates/devbridge-e2e/src/urf.rs:60-96 | The missing guards, exactly: all runs end within the width and all repeats within the height if and only if the raster is exactly height by width; and then the page is counted right |
| `Urf.OvershootIsCounted` | crates/devbridge-e2e/src/urf.rs:70-96 | A document of 47 bytes whose single one-pixel page is counted with 32768 dark pixels |
| `RasterMerge.Merge` | crates/devbridge-client/src/raster_merge.rs:60-98 | Merging succeeds if and only if there is an input, every header is right and the count fits; it then writes one header and every body in order and returns the number of bytes written; every error with what was written by then and the first bad document |
| `RasterMerge.FaultSays` | crates/devbridge-client/src/raster_merge.rs:60-98 | The refused document is the first whose header is not right: too short for one (12 bytes, 4 for PWG), or without the magic |
| `RasterMerge.Magics` | crates/devbridge-client/src/raster_merge.rs:21-57 | The two formats begin with `UNIRAST` and a zero, and with `RaS2` |
| `RasterMerge.MergedCountIs` | crates/devbridge-client/src/raster_merge.rs:104-111 | The merged count is 0 if and only if some input is uncounted, else the sum, and missing exactly when the sum leaves 32 bits |
| `RasterMerge.MergedDecodes` | crates/devbridge-client/src/raster_merge.rs:60-111 | Decoding the merged document gives the decoded pages of the inputs in order under the merged count, whenever each input decodes and the count fits |
| `RasterMerge.SingleIsCopied` | crates/devbridge-client/src/raster_merge.rs:58-60 | A single document is copied unchanged, for both formats |
| `PdfInfo.ParsePdfInfo` | crates/devbridge-client/src/pdf_pages.rs:140-177 | A listing is accepted if and only if every page line reads with the numbers 1..n, there is one, every declared count reads and the last one is n; the pages are those of the lines, with positive area and rotation in {0, 90, 180, 270} |
| `PdfInfo.ListingReadsBack` | crates/devbridge-client/src/pdf_pages.rs:16-24 | A printed listing of any number of pages - decimal boxes anywhere, CropBoxes and rotations on the pages that have them - reads back page by page |
| `PdfInfo.ParseRotate` | crates/devbridge-client/src/pdf_pages.rs:214-226 | An accepted rotation is one of 0, 90, 180 and 270; which one it is, `RotateReadsBack` and `NoRotateReads` say |
| `PdfInfo.RotateReadsBack` | crates/devbridge-client/src/pdf_pages.rs:214-226 | Behind any text without an R, a printed rotation, negative ones included, is read as its remainder of 360 if it is a multiple of 90 and refused otherwise |
| `PdfInfo.NoRotateReads` | crates/devbridge-client/src/pdf_pages.rs:214-226 | Without a rotation the page stands upright |
| `Text.NumberIsWorth` | crates/devbridge-client/src/pdf_pages.rs:186-206 | A printed number is read as its sign times its whole part and the tenths, hundredths, ... of its fraction |
| `Text.ExponentReadsBack` | crates/devbridge-client/src/pdf_pages.rs:186-206 | With an `e` or `E` and an exponent it is read as that many powers of ten more |
| `PdfPages.PlanRuns` | crates/devbridge-client/src/pdf_pages.rs:231-245 | The planning loop gives the plan of every page list, which `PlanIffIsPlan`, `PageFitsItsMedium` and `NextPageJoinsIff` describe |
| `PdfPages.PlanIffIsPlan` | crates/devbridge-client/src/pdf_pages.rs:228-245 | The plan is the ONLY list of runs that makes up 1..n in order, gives each run its first page's own medium, has every page within tolerance of its run's medium (no drift), and ends a run only where the next page is not |
| `PdfPages.PageFitsItsMedium` | crates/devbridge-client/src/pdf_pages.rs:74-103 | In the page's own sides and rotation: it gets a fixed medium if and only if it is seen lying down - wider than high, or higher than wide under a quarter turn - and then a strictly portrait one, less than half a point off its shorter and longer side |
| `PdfPages.NextPageJoinsIff` | crates/devbridge-client/src/pdf_pages.rs:231-245 | A page joins the last run if and only if neither lies down, or both do and the run's medium is within half a point of the page's sides; otherwise it begins a run on a medium of exactly its own sides |
| `PdfPages.SummaryCounts` | crates/devbridge-client/src/pdf_pages.rs:266-272 | The summary counts the pages that are seen lying down, and the others |
| `PdfPages.PlainRunIff` | crates/devbridge-client/src/pdf_pages.rs:247-262 | One plain run is planned if and only if no page is seen lying down, which is when the summary counts none |
| `PdfPages.Summarize` | crates/devbridge-client/src/pdf_pages.rs:266-272 | The counts add up to the pages, and no landscape page is counted exactly when there is none |
| `GsPlan.ArgsMeanTheRun` | crates/devbridge-client/src/pdf_pages.rs:250-263 | The arguments of a run, read as Ghostscript reads them, ask for exactly its pages on its medium; without a range for the whole document |
| `GsPlan.CallsAre` | crates/devbridge-client/src/gs_plan.rs:104-124 | Several runs are as many calls, one run is one call for the whole document, and a plain document or one without a plan is a call with no arguments of its own |
| `GsPlan.PageCountIs` | crates/devbridge-client/src/gs_plan.rs:116-125 | A planned document has the planned pages; for any other the progress lines are counted, and without them the files |
| `GsPlan.FromPdfInfo` | crates/devbridge-client/src/gs_plan.rs:79-101 | A plan is made if and only if Ghostscript succeeded and its listing is well-formed, and it is the plan and summary of the listed pages |
| `Ghostscript.RenderRuns` | crates/devbridge-client/src/ghostscript.rs:343-388 | The runs loop and the merge succeed if and only if every call does and the files merge; the output is the merged document of the runs' files in order; at most one `failed` event |
| `Ghostscript.Render` | crates/devbridge-client/src/ghostscript.rs:131-278 | A render succeeds if and only if the orientation could be read, its calls succeed and there is output - a file that is not empty, or a first page image; what is then written, counted and emitted, and at most one `failed` event otherwise |
| `Ghostscript.OrientationSays` | crates/devbridge-client/src/ghostscript.rs:279-328 | Only the merging devices read the page list; reading it is given up only for a cancel or a killed Ghostscript, and a list that cannot be had or read leaves the orientation unknown |
| `Ghostscript.CollectPages` | crates/devbridge-client/src/ghostscript.rs:210-230 | For devices that write one image per page: the files numbered 1, 2, ... up to the first that is missing, in order |
| `Ghostscript.DocumentShowsItsPages` | crates/devbridge-client/src/ghostscript.rs:343-404 | With a faithful renderer the output decodes to exactly the pages 1..n, once each, in order, each on its run's medium, and n pages are reported |
| `Ghostscript.RunsEqualPageByPage` | crates/devbridge-client/src/ghostscript.rs:343-404 | Rendering by runs decodes to the same pages as rendering every page alone on its run's medium and merging |
| `Ghostscript.RenderShowsTheListedPages` | crates/devbridge-client/src/gs_plan.rs:79-124 | The same theorem from the printed page listing to the decoded output |
| `Download.SendChunks` | crates/devbridge-server/src/dispatch.rs:327-345 | From any offset the chunks are contiguous, non-empty, at most 65536 bytes, together the rest of the payload, exactly as many as needed, and only the one that ends the payload is marked last |
| `Download.FirstChunks` | crates/devbridge-server/src/dispatch.rs:340-343 | Whatever first chunks of a stream arrive are chunks of the payload from the same offset |
| `Download.SpoolFile.Download` | crates/devbridge-client/src/receiver.rs:613-658 | An attempt hashes everything the file then holds, and leaves a shorter file after a broken stream and none after a wrong hash |
| `Download.FileIsAPrefix` | crates/devbridge-client/src/receiver.rs:613-658 | Across any sequence of interrupted and resumed attempts, and of removals at the end of a job, the local file is a prefix of the payload |
| `Download.CompleteAttempt` | crates/devbridge-client/src/receiver.rs:640-658 | After any such sequence, a complete stream makes the attempt succeed if and only if the payload has the expected hash, leaving exactly the payload, otherwise no file |
| `Download.BrokenAttempt` | crates/devbridge-client/src/receiver.rs:613-658 | An attempt whose stream breaks fails, and keeps what it had and as much of the rest as reached the file |
| `Download.SpoolFile.Remove` | crates/devbridge-client/src/receiver.rs:586-588 | The file of a finished job goes, whatever became of the job |
| `Download.LivingReceiverStartsAnew` | crates/devbridge-client/src/receiver.rs:586-588 | While the receiver lives, the removal after every job leaves an attempt nothing to resume from: each starts from no file |
| `StreamPeers.PeerIsTheNewestStreams` | crates/devbridge-server/src/dispatch.rs:63-83 | For every interleaving of connects and late cleanups, the registry knows a machine exactly while its newest stream is not cleaned up, by that stream's id and address |
| `StreamPeers.StreamPeers.PeerOf` | crates/devbridge-server/src/dispatch.rs:80-83 | After any calls: the address of the machine's newest stream if its cleanup has not run, and none otherwise |
| `StreamPeers.StreamPeers.Connected` | crates/devbridge-server/src/dispatch.rs:63-68 | The call joins the history, and the map is still what the history leaves |
| `StreamPeers.StreamPeers.Disconnected` | crates/devbridge-server/src/dispatch.rs:69-79 | A cleanup forgets a machine only if its own connection is still the one recorded; the call joins the history the map follows from |
| `StreamPeers.CounterIsLiveStreams` | crates/devbridge-server/src/dispatch.rs:192-281 | In every run the connected counter is the number of streams opened and not cleaned up |
| `StreamPeers.StreamLives` | crates/devbridge-server/src/dispatch.rs:192-293 | The life of every stream: four steps that connect it, five that clean it up, the last two only if it is still the one routed to |
| `StreamPeers.StepKeepsShownOnlineIff` | crates/devbridge-server/src/dispatch.rs:275-293 | A step keeps every machine with a routed stream shown online if and only if it is not the offline write of a cleanup that a newer stream overtook |
| `StreamPeers.AlwaysShownIff` | crates/devbridge-server/src/dispatch.rs:192-293 | The same over whole runs |
| `StreamPeers.PoliteRunsAreShown` | crates/devbridge-server/src/dispatch.rs:192-205 | From the start, runs in which streams register only while no cleanup of their machine stands between its check and its offline write always show routed machines online |
| `StreamPeers.OvertakenCleanup` | crates/devbridge-server/src/dispatch.rs:282-286 | Any cleanup that passed its check can be overtaken: the new stream is connected, counted and routed to, and the machine is shown offline |
| `Tray.OthersLeaveNoTrace` | crates/devbridge-app/src/tray.rs:96-164 | If every job has one owner and the filter goes from pending to one user, erasing all events of other users' jobs from any trace leaves list, icon and filter unchanged |
| `Tray.ListIsTheNewest` | crates/devbridge-app/src/job_tracker.rs:110-127 | The list is always the newest at most five admitted jobs, newest first |
| `Tray.JobTracker.ShouldProcess` | crates/devbridge-app/src/job_tracker.rs:88-97 | Pending drops everything, disabled passes everything, a user passes only its own events, up to ASCII case |
| `Tray.JobTracker.Handle` | crates/devbridge-app/src/tray.rs:96-164 | One turn of the event loop makes the specified step and notifies only about events that pass the filter |
| `Tray.EventShows` | crates/devbridge-app/src/job_tracker.rs:129-178 | What an event of a listed job shows: completed and unconfirmed under a green icon, failed or cancelled under a red one, nothing otherwise; and that nothing else changes |
| `Tray.NewJobShows` | crates/devbridge-app/src/job_tracker.rs:99-127 | A new job that passes is listed first, in progress, under a yellow icon; the others move down and the sixth goes; what the filter holds back, or names no listed job, changes nothing |
| `Tray.FilterPasses` | crates/devbridge-app/src/job_tracker.rs:84-97 | The filter in letters: the same character, or the two cases of one ASCII letter |
| `Tray.PollShows` | crates/devbridge-app/src/job_tracker.rs:179-192 | The icon is gray while offline; coming back turns gray green and keeps anything else |
| `DeviceJobs.Fake.ApplyAck` | crates/devbridge-e2e/src/device_jobs.rs:174-208 | Every ack's effect on the jobs and its answer |
| `DeviceJobs.Fake.ClaimNext` | crates/devbridge-e2e/src/device_jobs.rs:239-254 | The lowest queued id is claimed, or nothing changes |
| `DeviceJobs.AckIsRefusedIff` | crates/devbridge-e2e/src/device_jobs.rs:174-208 | Every refusal and every duplicate answer, exactly, with the 45 seconds after a claim; they change nothing |
| `DeviceJobs.AckDecides` | crates/devbridge-e2e/src/device_jobs.rs:174-208 | An accepted ack of a job in hand: indeterminate makes it unknown, a clean one done, any other failed, recorded as not received exactly when it says so |
| `DeviceJobs.ClaimHandsOut` | crates/devbridge-e2e/src/device_jobs.rs:239-254 | A claim hands out the queued job of the lowest id, at this time |
| `DeviceJobs.EndedByItsAck` | crates/devbridge-e2e/src/device_jobs.rs:174-253 | Over every run: a job that ended, ended by an ack of its own that found it in hand - well exactly if that ack was clean, and as not received exactly if it said so |
| `DeviceJobs.RunChanges` | crates/devbridge-e2e/src/device_jobs.rs:174-253 | Over every run of claims and acks jobs only move up and final ones never change; a job is handed out once if it was queued and no longer is, never otherwise; one ack finalises it if it became final, none otherwise; `not_received` implies Failed with no indeterminate report |
| `DeviceJobs.NotReceivedOnlyLate` | crates/devbridge-e2e/src/device_jobs.rs:184-196 | `not_received` is recorded if and only if its ack finds a claimed or unknown job without an indeterminate report, outside the claim window |
| `DispatchCycles.CountDispatchCyclesThatSent` | crates/devbridge-e2e/src/main.rs:2289-2315 | The one-pass flag loop counts the segments, cut at each `downloaded`, that contain a `sending` |
| `DispatchCycles.CountTells` | crates/devbridge-e2e/src/main.rs:2270-2288 | The count is 0 if and only if nothing was sent, and more than 1 if and only if a `downloaded` has a `sending` on both sides |

## Left out

- DirectIpp.JobOutcome: the HTTP exchange is one nondeterministic answer per request; a printer that accepts a page although its answer is never read does not count as having accepted it.
- NeverResent.AcceptedJobIsNeverResent: says nothing of an acceptance read only after the outer timeout was reported (a request already in flight then runs to its own timeout), and nothing of sends before the report, which `SentAroundReportIff` and `ReaperSendsAgainIff` decide.
- NeverResent.NotSentAgainOnceHeardOf: the job has no retry waiting at the start and the reaper does not requeue it; what happens otherwise is decided by the same two.
- NeverResent.StreamedTwiceIff: the status messages on the job are those of print tasks; `retrying`, which none sends, is not among them.
- Retries.RetriesAreBounded: one completion per send and harmless status messages only (what the others do is proved beside it); the stale-job reaper and a new push are steps of the server model, but not of these runs.
- Relay.PrintedAsOftenAsStreamed: "printed" means that the task took the printer; what it then prints before a panic or a cancel is not looked at. Download failures and broken streams are steps without a cause.
- Dispatch.DispatchService.CompleteJob: storage and audit writes succeed; a failing database, and a stored state text that cannot be read, are not modelled.
- Dispatch.DispatchService.FindStale: one job per step instead of a list per round; how long a job has been in flight is up to the clock.
- Delivery.PagesArrive: the printer may answer anything; what it answers is not tied to what it was sent.
- Urf.UrfPages: counters are unbounded; above widths and heights of 2^32 - 257 the source's 32-bit counters may wrap. The source's one function is three methods here, one per loop.
- RasterMerge.Merge: readers and the writer do not fail half way; what an input still has to give after an error is not stated. There is no PWG decoder in the repository, so for PWG only the written bytes are stated.
- PdfPages.PlanRuns: sizes are real numbers, without the rounding of 64-bit floats.
- PdfInfo.ParsePdfInfo: numbers are exact reals, without the rounding and overflow of 64-bit floats; infinities and not-a-number, which the source refuses a step later, are refused when parsed.
- Ghostscript.Render: finding the executable, the text of the progress lines, file sizes in the events and the deletion of temporary files are left out.
- Ghostscript.DocumentShowsItsPages: that Ghostscript draws the pages it is asked for is an assumption on the renderer; what a drawn page looks like is a parameter.
- Download.SpoolFile.Download: the hash is any function; the file system loses at most the end of what was written when a stream breaks.
- StreamPeers.AlwaysShownIff: heartbeats, which also set the online flag, and the start-up reset are not steps.
- Tray.JobTracker.Handle: the initial job list fetched at start-up, the menu and the notification texts are left out.
- DeviceJobs.RunChanges: the set of jobs is fixed during a run; authorisation, heartbeats and the long poll's waiting are left out.
- DispatchCycles.CountDispatchCyclesThatSent: an event is only its stage.
- InFlight.PrintTasks.Hold: waiting for the lock is the absence of the step; fairness is not stated.
- Details and messages of events, logs, error texts: only the stage, the success flag and the verification are kept.
- The other print backends (raw socket, spoolers, CUPS, proxy), printer discovery, the serial bridge and the Windows spooler: foreign calls.
- The HTTP, gRPC and TLS layers, certificates, configuration, the dashboard, Odoo transport and its job loop, the installer: plumbing around the modelled core.
- The end-to-end suite's own expectations of page pictures (`expected_dark`, `check_portrait_pages`): single checks on values modelled here.
