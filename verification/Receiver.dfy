/** The client's receiver: what one dispatched job reports to the server on the
    status stream and in its completion, from the events and the outcome of its
    print task. */
module Receiver {
  import opened Common
  import opened PrintEvents
  import opened PrintBackend
  import opened Dispatch

  /** The wire integer of a stage; `unconfirmed` travels as FAILED (5). */
  function PrintStageToProtoState(stage: PrintStage): int {
    match stage
    case Received => 1
    case Routed => 1
    case Downloading => 2
    case Downloaded => 2
    case Rendering => 7
    case Rendered => 7
    case Sending => 8
    case Sent => 8
    case Acknowledged => 8
    case Verified => 8
    case Completed => 4
    case Failed => 5
    case Unconfirmed => 5
    case Retrying => 1
  }

  /** `received` and `routed` stay with the client. */
  predicate IsForwarded(e: PrintJobEvent) {
    e.stage != PrintStage.Received && e.stage != PrintStage.Routed
  }

  function UpdateOf(e: PrintJobEvent): StatusUpdate {
    StatusUpdate(e.jobId, PrintStageToProtoState(e.stage), Some(e))
  }

  /** How a dispatch of the job ended for the receiver. */
  datatype PrintDispatch =
    | TaskCompleted(result: PrintResult)
    | TimedOut
    | DuplicateDispatch

  /** `printerAccepted` is the emitter's flag when the timeout fired. */
  function ResultOf(dispatch: PrintDispatch, printerAccepted: bool): PrintResult {
    match dispatch
    case TaskCompleted(r) => r
    case TimedOut => Err(PrintTimeoutError(printerAccepted))
    case DuplicateDispatch => Err(Plain(DuplicateSuppressed))
  }

  function CompletionOf(jobId: string, clientId: string, r: PrintResult): Completion {
    var report := ReportOf(r);
    Completion(jobId, report.success, report.unconfirmed, clientId)
  }

  /** What the server stores for each stage that reaches it. */
  lemma StoredStateOf(e: PrintJobEvent)
    ensures var stored := StoredState(UpdateOf(e));
      && (stored == JobState.Completed <==> e.stage == PrintStage.Completed)
      && (stored == JobState.Failed <==> e.stage == PrintStage.Failed)
      && (stored == JobState.Unconfirmed <==> e.stage == PrintStage.Unconfirmed)
      && (stored == JobState.Downloading <==> e.stage == PrintStage.Downloading || e.stage == PrintStage.Downloaded)
      && (stored == JobState.Printing <==>
            || e.stage == PrintStage.Rendering || e.stage == PrintStage.Rendered || e.stage == PrintStage.Sending
            || e.stage == PrintStage.Sent || e.stage == PrintStage.Acknowledged || e.stage == PrintStage.Verified)
      && stored != JobState.Cancelled
      && (stored == JobState.Queued <==>
            e.stage == PrintStage.Received || e.stage == PrintStage.Routed || e.stage == PrintStage.Retrying)
  {
  }

  /** What becomes of a print: confirmed, it is reported as a success; known to
      the printer but not confirmed, as unconfirmed - a task the timeout
      abandoned exactly if the printer had accepted the job - and otherwise as a
      failure. The client's own history says the same. */
  lemma ReportSays(jobId: string, clientId: string, dispatch: PrintDispatch, printerAccepted: bool)
    ensures (var r := ResultOf(dispatch, printerAccepted);
             var c := CompletionOf(jobId, clientId, r);
             && c.jobId == jobId && c.clientId == clientId
             && (c.success <==> dispatch.TaskCompleted? && dispatch.result.Ok?)
             && (c.unconfirmed <==> (dispatch.TimedOut? && printerAccepted)
                                    || (dispatch.TaskCompleted? && dispatch.result.Err? && dispatch.result.error.UnconfirmedOutcome?))
             && ReportOf(r).localState == (if c.success then JobState.Completed
                                           else if c.unconfirmed then JobState.Unconfirmed
                                           else JobState.Failed))
  {
  }

  /** The stages by their numbers on the wire: 2 while downloading, 7 while
      rendering, 8 while sending, 4 and 5 for the end - an unconfirmed end is a
      5 too, no number of its own - and 1 for everything that is queued. */
  lemma StageTravelsAs(stage: PrintStage)
    ensures (var n := PrintStageToProtoState(stage);
             && (n == 2 <==> stage == PrintStage.Downloading || stage == PrintStage.Downloaded)
             && (n == 7 <==> stage == PrintStage.Rendering || stage == PrintStage.Rendered)
             && (n == 8 <==> stage == PrintStage.Sending || stage == PrintStage.Sent
                             || stage == PrintStage.Acknowledged || stage == PrintStage.Verified)
             && (n == 4 <==> stage == PrintStage.Completed)
             && (n == 5 <==> stage == PrintStage.Failed || stage == PrintStage.Unconfirmed)
             && (n == 1 <==> stage == PrintStage.Received || stage == PrintStage.Routed || stage == PrintStage.Retrying))
  {
  }

  /** Only what the server knows of itself is kept back. */
  lemma ForwardedIff(e: PrintJobEvent)
    ensures IsForwarded(e) <==> e.stage != PrintStage.Received && e.stage != PrintStage.Routed
  {
  }
}
