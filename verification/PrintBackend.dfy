/** The decisions every print backend shares: pages of a job, the outer
    timeout's error, and what is reported of a finished print. */
module PrintBackend {
  import opened Common
  import opened PrintEvents

  type PrintResult = Result<(), PrintError>

  /** Page `index` (from 0) of `pages`. */
  datatype PageOfJob = PageOfJob(index: nat, pages: nat) {
    /** Nothing reached the printer before this page. */
    predicate FailureIsTheJobs() {
      index == 0
    }

    predicate IsLast() {
      index + 1 == pages
    }

    /** Only the last page completes the job. */
    function PrintedStage(): PrintStage {
      if IsLast() then PrintStage.Completed else PrintStage.Sent
    }
  }

  method BailIfCancelled(cancelled: bool, jobId: string, events: EventEmitter) returns (r: PrintResult)
    requires events.Valid()
    modifies events
    ensures events.Valid()
    ensures r == if cancelled then Err(Plain(CancelledBeforeFirstPage)) else Ok(())
    ensures events.emitted == old(events.emitted) + if cancelled then [FailEvent(jobId, PrintStage.Failed)] else []
  {
    if cancelled {
      events.Emit(FailEvent(jobId, PrintStage.Failed));
      return Err(Plain(CancelledBeforeFirstPage));
    }
    return Ok(());
  }

  predicate IsUnconfirmed(r: PrintResult) {
    r.Err? && r.error.UnconfirmedOutcome?
  }

  datatype PrintReport = PrintReport(success: bool, unconfirmed: bool, localState: JobState)

  function ReportOf(r: PrintResult): PrintReport {
    match r
    case Ok(_) => PrintReport(true, false, JobState.Completed)
    case Err(_) =>
      if IsUnconfirmed(r) then PrintReport(false, true, JobState.Unconfirmed)
      else PrintReport(false, false, JobState.Failed)
  }

  /** The error of a task the outer timeout abandoned. */
  function PrintTimeoutError(printerAccepted: bool): PrintError {
    if printerAccepted then UnconfirmedOutcome(AfterOuterTimeout) else Plain(TaskTimedOut)
  }
}
