/** Job states, the audit events of a print, and the emitter through which a
    backend reports them. */
module PrintEvents {
  import opened Common

  datatype JobState = Queued | Downloading | Printing | Completed | Failed | Cancelled | Unconfirmed

  datatype PrintStage =
    | Received | Routed | Downloading | Downloaded | Rendering | Rendered | Sending | Sent
    | Verified | Acknowledged | Completed | Failed | Retrying | Unconfirmed

  /** Why a print ended without a confirmed result (the source's error texts). */
  datatype Cause =
    | RenderFailed
    | CancelledBeforeFirstPage
    | CancelledBetweenPages
    | PageUnreadable
    | ClientNotBuilt
    | SendFailed
    | ResponseUnreadable
    | IppErrorStatus(code: nat)
    | PrinterGaveUp(state: int, printerJobId: nat)
    | TaskPanicked
    | TaskTimedOut
    | DuplicateSuppressed

  /** Why the end of a job the printer accepted was never learned. */
  datatype LostBecause =
    | CancelledWhilePolling(lastState: int)
    | PollFailed
    | PollUnreadable
    | PrinterForgotJob
    | NoFinalState(lastState: int)

  /** The outcome of a job the printer accepted but whose end is unknown. */
  datatype Outcome =
    | AfterAcceptance(printerJobId: nat, why: LostBecause)
    | AfterAcceptedPages(failedIndex: nat, pages: nat, cause: PrintError)
    | AfterOuterTimeout

  datatype PrintError = Plain(cause: Cause) | UnconfirmedOutcome(outcome: Outcome)

  datatype Evidence =
    | NoEvidence
    | FinalState(state: int, printerJobId: nat)
    | UnknownEnd(outcome: Outcome)

  const IPP_JOB_STATE := "ipp_job_state"

  datatype PrintJobEvent = PrintJobEvent(
    jobId: string,
    stage: PrintStage,
    success: bool,
    verificationMethod: string,
    verificationEvidence: Evidence)

  function OkEvent(jobId: string, stage: PrintStage): PrintJobEvent {
    PrintJobEvent(jobId, stage, true, "", NoEvidence)
  }

  function FailEvent(jobId: string, stage: PrintStage): PrintJobEvent {
    PrintJobEvent(jobId, stage, false, "", NoEvidence)
  }

  function VerifiedEvent(jobId: string, means: string, evidence: Evidence): PrintJobEvent {
    PrintJobEvent(jobId, PrintStage.Verified, true, means, evidence)
  }

  /** A printer's acceptance: a successful `acknowledged` event. */
  predicate IsAcceptance(e: PrintJobEvent) {
    e.stage == PrintStage.Acknowledged && e.success
  }

  /** Some printer accepted (part of) the job. */
  predicate Accepted(events: seq<PrintJobEvent>) {
    exists i :: 0 <= i < |events| && IsAcceptance(events[i])
  }

  /** The last verification among `events`. */
  function LastVerification(events: seq<PrintJobEvent>): (string, Evidence) {
    if events == [] then ("", NoEvidence)
    else
      var e := events[|events| - 1];
      if e.stage == PrintStage.Verified || e.verificationMethod != ""
      then (e.verificationMethod, e.verificationEvidence)
      else LastVerification(events[..|events| - 1])
  }

  /** One successful `acknowledged` event is enough, wherever it stands. */
  lemma AcceptedIff(events: seq<PrintJobEvent>)
    ensures Accepted(events) <==> exists e :: e in events && e.stage == PrintStage.Acknowledged && e.success
  {
    if e :| e in events && e.stage == PrintStage.Acknowledged && e.success {
      var i :| 0 <= i < |events| && events[i] == e;
      assert IsAcceptance(events[i]);
    }
  }

  /** The verification kept is that of the last event that is a `verified` or
      names a method, and none without one. */
  lemma {:induction false} LastVerificationIs(events: seq<PrintJobEvent>, i: nat)
    requires i <= |events|
    requires forall j :: i <= j < |events| ==> events[j].stage != PrintStage.Verified && events[j].verificationMethod == ""
    ensures i == 0 ==> LastVerification(events) == ("", NoEvidence)
    ensures i > 0 && (events[i - 1].stage == PrintStage.Verified || events[i - 1].verificationMethod != "") ==>
              LastVerification(events) == (events[i - 1].verificationMethod, events[i - 1].verificationEvidence)
    decreases |events|
  {
    if i < |events| {
      LastVerificationIs(events[..|events| - 1], i);
    }
  }

  /** Sends a job's events to whoever listens, and remembers what the outer
      timeout and the completion need to know about them. */
  class EventEmitter {
    var emitted: seq<PrintJobEvent>
    var printerAccepted: bool
    var verification: (string, Evidence)

    /** The flag and the pair are those of the events sent so far. */
    ghost predicate Valid()
      reads this
    {
      printerAccepted == Accepted(emitted) && verification == LastVerification(emitted)
    }

    constructor ()
      ensures Valid() && emitted == []
    {
      emitted := [];
      printerAccepted := false;
      verification := ("", NoEvidence);
    }

    method Emit(event: PrintJobEvent)
      requires Valid()
      modifies this
      ensures Valid() && emitted == old(emitted) + [event]
    {
      if event.stage == PrintStage.Acknowledged && event.success {
        printerAccepted := true;
      }
      if event.stage == PrintStage.Verified || event.verificationMethod != "" {
        verification := (event.verificationMethod, event.verificationEvidence);
      }
      emitted := emitted + [event];
      assert forall i :: 0 <= i < |old(emitted)| ==> emitted[i] == old(emitted)[i];
      assert emitted[|emitted| - 1] == event && emitted[..|emitted| - 1] == old(emitted);
    }
  }

  /** No event of `stage`. */
  ghost predicate Without(events: seq<PrintJobEvent>, stage: PrintStage) {
    forall i :: 0 <= i < |events| ==> events[i].stage != stage
  }
}
