/** The client's print task and the server's job states together: a job the
    printer accepted is never sent again once its outcome is reported. */
module NeverResent {
  import opened Common
  import opened PrintEvents
  import opened PrintBackend
  import opened DirectIpp
  import FakePrinterIpp
  import opened IppCodec
  import opened Dispatch
  import opened Receiver

  /** How a print task ends: the document cannot be rendered, it runs to its
      end, or - after some of its events - it panics or the outer timeout
      abandons it. */
  datatype Ending = NotRendered | RanToEnd | PanickedAfter(k: nat) | AbandonedAfter(k: nat)

  /** One dispatched print task of a direct_ipp client. */
  datatype Task = Task(jobId: string, envs: nat -> PageEnv, pages: nat, pollTimeoutMs: nat, ending: Ending)

  /** Rendering never yields an empty list of page files. */
  ghost predicate IsTask(t: Task) {
    0 < t.pages && Clocks(t.envs)
  }

  /** The pages of the task, sent to their end. */
  ghost function Job(t: Task): Attempt
    requires IsTask(t)
  {
    SendFrom(t.envs, 0, t.pages, t.jobId, t.pollTimeoutMs)
  }

  function FirstEvents(events: seq<PrintJobEvent>, k: nat): seq<PrintJobEvent> {
    events[..if k <= |events| then k else |events|]
  }

  /** The events emitted by the time the task's outcome is reported. */
  ghost function EventsByReport(t: Task): seq<PrintJobEvent>
    requires IsTask(t)
  {
    match t.ending
    case NotRendered => [FailEvent(t.jobId, PrintStage.Failed)]
    case RanToEnd => Job(t).events
    case PanickedAfter(k) => FirstEvents(Job(t).events, k)
    case AbandonedAfter(k) => FirstEvents(Job(t).events, k)
  }

  ghost function Report(t: Task, clientId: string): Completion
    requires IsTask(t)
  {
    var dispatch :=
      match t.ending
      case NotRendered => TaskCompleted(Err(Plain(RenderFailed)))
      case RanToEnd => TaskCompleted(Job(t).result)
      case PanickedAfter(_) => TaskCompleted(Err(Plain(TaskPanicked)))
      case AbandonedAfter(_) => TimedOut;
    CompletionOf(t.jobId, clientId, ResultOf(dispatch, Accepted(EventsByReport(t))))
  }

  /** After the printer's acceptance was read, the printer gave the first page
      up, or the client that polls it could not be built, or the task panicked. */
  ghost predicate FailsAfterAcceptance(t: Task)
    requires IsTask(t)
  {
    match t.ending
    case NotRendered => false
    case RanToEnd =>
      PageAccepted(t.envs(0)) && (!t.envs(0).pollClientBuilt || PageGivenUp(t.envs(0), t.pollTimeoutMs))
    case PanickedAfter(k) => Accepted(FirstEvents(Job(t).events, k))
    case AbandonedAfter(_) => false
  }

  /** A task's report lets the server retry the job exactly when no acceptance
      was read by then, or the task failed after acceptance. */
  lemma ReportIsPlainIff(t: Task, clientId: string)
    requires IsTask(t)
    ensures var report := Report(t, clientId);
      (!report.success && !report.unconfirmed) <==> (!Accepted(EventsByReport(t)) || FailsAfterAcceptance(t))
  {
    hide SendFrom, PageAccepted, PageGivenUp, PagePrinted, DecidedBy, Undecided;
    if t.ending.RanToEnd? {
      JobOutcome(t.envs, t.pages, t.jobId, t.pollTimeoutMs);
      JobAcceptance(t.envs, t.pages, t.jobId, t.pollTimeoutMs);
      RetriedDespiteAcceptance(t.envs, t.pages, t.jobId, t.pollTimeoutMs);
      if Job(t).result.Ok? {
        assert PagePrinted(t.envs(0), t.pollTimeoutMs);
        PrintedIsAccepted(t.envs(0), t.pollTimeoutMs);
      }
    }
  }

  /** The central promise. Once the printer's acceptance was read, the report of
      the task finishes the job on the server, in whatever state it is; and in
      no run from there - late status messages, late completions, backoffs, the
      reaper, ids left in channels - is the job sent again or its retry count
      changed. It excludes exactly the tasks that fail after acceptance, and a
      new job pushed under the same id. */
  lemma AcceptedJobIsNeverResent(cfg: Config, s: Server, t: Task, clientId: string, after: seq<Step>)
    requires IsTask(t) && t.jobId in s.jobs
    requires Accepted(EventsByReport(t)) && !FailsAfterAcceptance(t)
    requires forall i :: 0 <= i < |after| ==> !Pushes(after[i], t.jobId)
    ensures var reported := Next(cfg, s, Complete(Report(t, clientId)));
      var end := Run(cfg, reported, after);
      && Finished(reported, t.jobId) && Finished(end, t.jobId)
      && TimesSent(end, t.jobId) == TimesSent(s, t.jobId)
      && end.jobs[t.jobId].retryCount == s.jobs[t.jobId].retryCount
  {
    hide Next, Accepted, FailsAfterAcceptance, TimesSent, Count, SendFrom;
    ReportIsPlainIff(t, clientId);
    var report := Report(t, clientId);
    ConfirmingCompletion(cfg, s, report);
    var reported := Next(cfg, s, Complete(report));
    SentIsTimesSent(s, reported, t.jobId);
    FinishedIsNeverSent(cfg, reported, after, t.jobId);
  }

  /** Every status message on `id` is one a print task sends (`retrying` is not
      among its stages). */
  predicate FromClient(step: Step, id: string) {
    step.Status? && step.update.jobId == id ==>
      && step.update.event.Some?
      && step.update == UpdateOf(step.update.event.value)
      && IsForwarded(step.update.event.value)
      && step.update.event.value.stage != PrintStage.Retrying
  }

  lemma ForwardedStage(e: PrintJobEvent)
    requires IsForwarded(e)
    ensures e.stage != PrintStage.Received && e.stage != PrintStage.Routed
  {
  }

  /** No message of a print task stores the job as queued. */
  lemma ClientNeverQueues(steps: seq<Step>, id: string)
    requires forall i :: 0 <= i < |steps| ==> FromClient(steps[i], id)
    ensures NeverQueuedAgain(steps, id)
  {
    hide StoredState;
    forall i | 0 <= i < |steps| && steps[i].Status? && steps[i].update.jobId == id
      ensures StoredState(steps[i].update) != JobState.Queued
    {
      assert FromClient(steps[i], id);
      StoredStateOf(steps[i].update.event.value);
      ForwardedStage(steps[i].update.event.value);
    }
  }

  /** From its first status message on - whatever moved it out of queued - such
      a job is not sent again before its report either, if no older retry of it
      waits then and the reaper does not requeue it: in no run of its task's
      messages, lost, repeated or late, nor in any run after the report. What
      else can happen is decided by `SentAroundReportIff` and
      `ReaperSendsAgainIff`. */
  lemma NotSentAgainOnceHeardOf(cfg: Config, s: Server, before: seq<Step>, t: Task, clientId: string, after: seq<Step>)
    requires IsTask(t) && t.jobId in s.jobs && s.jobs[t.jobId].state != JobState.Queued && NoRetryWaiting(s, t.jobId)
    requires AllQuiet(before, t.jobId) && forall i :: 0 <= i < |before| ==> FromClient(before[i], t.jobId)
    requires Accepted(EventsByReport(t)) && !FailsAfterAcceptance(t)
    requires forall i :: 0 <= i < |after| ==> !Pushes(after[i], t.jobId)
    ensures var reported := Next(cfg, Run(cfg, s, before), Complete(Report(t, clientId)));
      TimesSent(Run(cfg, reported, after), t.jobId) == TimesSent(s, t.jobId)
  {
    hide Next, Run, Accepted, FailsAfterAcceptance, TimesSent, SendFrom, EventsByReport, FromClient;
    ClientNeverQueues(before, t.jobId);
    NotQueuedIsNotSent(cfg, s, before, t.jobId);
    QuietSteps(cfg, s, before, t.jobId);
    AcceptedJobIsNeverResent(cfg, Run(cfg, s, before), t, clientId, after);
  }

  lemma SentIsTimesSent(s: Server, next: Server, id: string)
    requires s.sent == next.sent
    ensures TimesSent(s, id) == TimesSent(next, id)
  {
  }

  /** Why the exception is needed: a plain report of an unfinished job below the
      retry limit is followed by a run that sends it again. */
  lemma PlainReportIsResent(cfg: Config, s: Server, c: Completion)
    requires c.jobId in s.jobs && !Finished(s, c.jobId) && !c.success && !c.unconfirmed
    requires s.jobs[c.jobId].retryCount < cfg.maxRetries
    ensures var end := Run(cfg, s, [Complete(c), Backoff(|s.waiting|), Send(c.jobId, true)]);
      TimesSent(end, c.jobId) == TimesSent(s, c.jobId) + 1
  {
    hide Next, TimesSent;
    var steps := [Complete(c), Backoff(|s.waiting|), Send(c.jobId, true)];
    var s1 := Next(cfg, s, steps[0]);
    var s2 := Next(cfg, s1, steps[1]);
    PlainFailureIsScheduled(cfg, s, c);
    BackoffRequeues(cfg, s1, |s.waiting|, c.jobId);
    QueuedIsSent(cfg, s2, c.jobId);
    SentIsTimesSent(s, s2, c.jobId);
    assert steps[1..] == [steps[1], steps[2]] && [steps[1], steps[2]][1..] == [steps[2]];
    RunOne(cfg, s2, steps[2]);
  }

  /** Some run from `s` that does not push the job anew sends it again. */
  ghost predicate CanBeSentAgain(cfg: Config, s: Server, id: string) {
    exists after :: SendsAgain(cfg, s, id, after)
  }

  ghost predicate SendsAgain(cfg: Config, s: Server, id: string, after: seq<Step>) {
    && (forall i :: 0 <= i < |after| ==> !Pushes(after[i], id))
    && TimesSent(Run(cfg, s, after), id) > TimesSent(s, id)
  }

  /** An accepted task of an unfinished job below the retry limit: after its
      report the job can be sent again if and only if the task failed after
      acceptance. */
  lemma ResentIffFailedAfterAcceptance(cfg: Config, s: Server, t: Task, clientId: string)
    requires IsTask(t) && t.jobId in s.jobs && !Finished(s, t.jobId) && s.jobs[t.jobId].retryCount < cfg.maxRetries
    requires Accepted(EventsByReport(t))
    ensures CanBeSentAgain(cfg, Next(cfg, s, Complete(Report(t, clientId))), t.jobId) <==> FailsAfterAcceptance(t)
  {
    hide Next, Run, Accepted, EventsByReport, FailsAfterAcceptance, TimesSent, SendFrom;
    var id, report := t.jobId, Report(t, clientId);
    var reported := Next(cfg, s, Complete(report));
    ReportIsPlainIff(t, clientId);
    if FailsAfterAcceptance(t) {
      PlainReportIsResent(cfg, s, report);
      var after := [Backoff(|s.waiting|), Send(id, true)];
      ReportThen(cfg, s, report, after);
      ReportSendsNothing(cfg, s, report);
      assert SendsAgain(cfg, reported, id, after);
    } else {
      forall after | forall i :: 0 <= i < |after| ==> !Pushes(after[i], id) ensures !SendsAgain(cfg, reported, id, after) {
        AcceptedJobIsNeverResent(cfg, s, t, clientId, after);
        ReportSendsNothing(cfg, s, report);
      }
    }
  }

  lemma ReportThen(cfg: Config, s: Server, c: Completion, after: seq<Step>)
    requires after == [Backoff(|s.waiting|), Send(c.jobId, true)]
    ensures Run(cfg, s, [Complete(c), Backoff(|s.waiting|), Send(c.jobId, true)]) == Run(cfg, Next(cfg, s, Complete(c)), after)
  {
    hide Next;
    assert [Complete(c), Backoff(|s.waiting|), Send(c.jobId, true)][1..] == after;
  }

  lemma ReportSendsNothing(cfg: Config, s: Server, c: Completion)
    ensures TimesSent(Next(cfg, s, Complete(c)), c.jobId) == TimesSent(s, c.jobId)
  {
    hide BackoffSecs, TimesSent;
    SentIsTimesSent(s, Next(cfg, s, Complete(c)), c.jobId);
  }

  // ---- An accepted job that is sent again ---------------------------------------

  /** The printer accepts page 1 as its job 1 (pending), and the client that
      should poll it cannot be built. */
  function UnpollableEnv(): PageEnv {
    PageEnv(false, Some([]), true, Some(Message(0, 1, FakePrinterIpp.AnswerItems(1, 3))), false, 0,
            (i: nat) => Tick(false, None, POLL_SLEEP_MS * i))
  }

  function UnpollableTask(id: string): Task {
    Task(id, (p: nat) => UnpollableEnv(), 1, 0, RanToEnd)
  }

  lemma UnpollableIsATask(id: string)
    ensures IsTask(UnpollableTask(id))
  {
    hide Message, FakePrinterIpp.AnswerItems;
    var env := UnpollableEnv();
    forall i: nat ensures Pauses(env, i) {
    }
    assert Clock(env);
  }

  lemma UnpollableIsAccepted()
    ensures PageAccepted(UnpollableEnv())
  {
    hide Parsed, Message, FakePrinterIpp.AnswerItems;
    FakePrinterIpp.AnswerReadBack(1, 1, 3);
  }

  /** So an accepted job is sent again: the printer accepted its only page, and
      some run after the report streams it a second time. */
  lemma AcceptedJobIsSentAgain(cfg: Config, s: Server, id: string, clientId: string)
    requires id in s.jobs && !Finished(s, id) && s.jobs[id].retryCount < cfg.maxRetries
    ensures (var t := UnpollableTask(id);
             && IsTask(t) && Accepted(EventsByReport(t))
             && CanBeSentAgain(cfg, Next(cfg, s, Complete(Report(t, clientId))), id))
  {
    hide Next, Accepted, SendFrom, CanBeSentAgain, PageAccepted, UnpollableEnv, Finished, PageGivenUp;
    var t := UnpollableTask(id);
    UnpollableIsATask(id);
    UnpollableIsAccepted();
    JobAcceptance(t.envs, t.pages, t.jobId, t.pollTimeoutMs);
    PollClientIsMissing();
    ResentIffFailedAfterAcceptance(cfg, s, t, clientId);
  }

  lemma PollClientIsMissing()
    ensures !UnpollableEnv().pollClientBuilt
  {
  }

  lemma PlainFailureIsScheduled(cfg: Config, s: Server, c: Completion)
    requires c.jobId in s.jobs && !Finished(s, c.jobId) && !c.success && !c.unconfirmed
    requires s.jobs[c.jobId].retryCount < cfg.maxRetries
    ensures var next := Next(cfg, s, Complete(c));
      && next.sent == s.sent && |next.waiting| == |s.waiting| + 1 && next.waiting[|s.waiting|].jobId == c.jobId
      && c.jobId in next.jobs && next.jobs[c.jobId].state == JobState.Failed
  {
    hide BackoffSecs;
  }

  lemma BackoffRequeues(cfg: Config, s: Server, k: nat, id: string)
    requires k < |s.waiting| && s.waiting[k].jobId == id && id in s.jobs && Requeueable(s.jobs[id].state)
    ensures var next := Next(cfg, s, Backoff(k));
      next.sent == s.sent && id in next.jobs && next.jobs[id].state == JobState.Queued
  {
  }

  lemma QueuedIsSent(cfg: Config, s: Server, id: string)
    requires id in s.jobs && s.jobs[id].state == JobState.Queued
    ensures TimesSent(Next(cfg, s, Send(id, true)), id) == TimesSent(s, id) + 1
  {
    SentOne(s, id, id, true);
  }

  /** A task abandoned before its acceptance was read is reported plainly and
      its retry scheduled; its own late `unconfirmed` message still finishes the
      job, and then no backoff sends it again. */
  lemma LateUnconfirmedMessageStopsTheRetry(cfg: Config, s: Server, e: PrintJobEvent, after: seq<Step>)
    requires e.jobId in s.jobs && e.stage == PrintStage.Unconfirmed
    requires forall i :: 0 <= i < |after| ==> !Pushes(after[i], e.jobId)
    ensures var told := Next(cfg, s, Status(UpdateOf(e)));
      && Finished(told, e.jobId)
      && TimesSent(Run(cfg, told, after), e.jobId) == TimesSent(s, e.jobId)
  {
    hide TimesSent, StoredState;
    var told := Next(cfg, s, Status(UpdateOf(e)));
    StoredStateOf(e);
    SentIsTimesSent(s, told, e.jobId);
    FinishedIsNeverSent(cfg, told, after, e.jobId);
  }

  // ---- Sent again before the report ----------------------------------------------

  /** Some run of the job's own messages, backoffs and deliveries, and of
      anything that happens to other jobs, sends it. */
  ghost predicate CanBeSentQuietly(cfg: Config, s: Server, id: string) {
    exists steps :: SendsQuietly(cfg, s, id, steps)
  }

  ghost predicate SendsQuietly(cfg: Config, s: Server, id: string, steps: seq<Step>) {
    && AllQuiet(steps, id) && (forall i :: 0 <= i < |steps| ==> FromClient(steps[i], id))
    && TimesSent(Run(cfg, s, steps), id) > TimesSent(s, id)
  }

  /** A job that left the queue can be sent again before its report if and only
      if it is unfinished and an older retry of it is still waiting: that
      backoff requeues even a job that is being printed. */
  lemma SentQuietlyIff(cfg: Config, s: Server, id: string)
    requires id in s.jobs && s.jobs[id].state != JobState.Queued
    ensures CanBeSentQuietly(cfg, s, id) <==> !Finished(s, id) && !NoRetryWaiting(s, id)
  {
    hide Next, Run, TimesSent, FromClient;
    if Finished(s, id) {
      forall steps | AllQuiet(steps, id) ensures !SendsQuietly(cfg, s, id, steps) {
        FinishedIsNeverSent(cfg, s, steps, id);
      }
    } else if NoRetryWaiting(s, id) {
      forall steps | AllQuiet(steps, id) && forall i :: 0 <= i < |steps| ==> FromClient(steps[i], id)
        ensures !SendsQuietly(cfg, s, id, steps)
      {
        ClientNeverQueues(steps, id);
        NotQueuedIsNotSent(cfg, s, steps, id);
      }
    } else {
      var k :| 0 <= k < |s.waiting| && s.waiting[k].jobId == id;
      WaitingRetrySends(cfg, s, k, id);
    }
  }

  lemma WaitingRetrySends(cfg: Config, s: Server, k: nat, id: string)
    requires k < |s.waiting| && s.waiting[k].jobId == id
    requires id in s.jobs && Requeueable(s.jobs[id].state)
    ensures SendsQuietly(cfg, s, id, [Backoff(k), Send(id, true)])
  {
    hide Next, TimesSent;
    var requeued := Next(cfg, s, Backoff(k));
    BackoffRequeues(cfg, s, k, id);
    TwoSteps(cfg, s, Backoff(k), Send(id, true));
    QueuedIsSent(cfg, requeued, id);
    SentIsTimesSent(s, requeued, id);
  }

  lemma TwoSteps(cfg: Config, s: Server, first: Step, second: Step)
    ensures Run(cfg, s, [first, second]) == Next(cfg, Next(cfg, s, first), second)
  {
    hide Next;
    assert [first, second][1..] == [second];
    RunOne(cfg, Next(cfg, s, first), second);
  }

  /** Around the report of an accepted task the job can be sent again: before it
      by `before`, or after it by `after`. */
  ghost predicate SentAroundReport(cfg: Config, s: Server, t: Task, clientId: string, before: seq<Step>, after: seq<Step>)
    requires IsTask(t)
  {
    && AllQuiet(before, t.jobId) && (forall i :: 0 <= i < |before| ==> FromClient(before[i], t.jobId))
    && (forall i :: 0 <= i < |after| ==> !Pushes(after[i], t.jobId))
    && TimesSent(Run(cfg, Next(cfg, Run(cfg, s, before), Complete(Report(t, clientId))), after), t.jobId) > TimesSent(s, t.jobId)
  }

  /** The whole promise with its exact condition. From the first status message
      of an accepted task on that moved its job out of queued, through the
      task's report and for ever after, the job can be sent again if and only
      if it is unfinished and an older retry of it is still waiting. */
  lemma SentAroundReportIff(cfg: Config, s: Server, t: Task, clientId: string)
    requires IsTask(t) && t.jobId in s.jobs && s.jobs[t.jobId].state != JobState.Queued
    requires Accepted(EventsByReport(t)) && !FailsAfterAcceptance(t)
    ensures (exists before, after :: SentAroundReport(cfg, s, t, clientId, before, after))
       <==> !Finished(s, t.jobId) && !NoRetryWaiting(s, t.jobId)
  {
    hide Next, Run, TimesSent, FromClient, Accepted, FailsAfterAcceptance, EventsByReport, AllQuiet, Report;
    var id := t.jobId;
    if !Finished(s, id) && !NoRetryWaiting(s, id) {
      SentQuietlyIff(cfg, s, id);
      var before :| SendsQuietly(cfg, s, id, before);
      RunNothing(cfg, Next(cfg, Run(cfg, s, before), Complete(Report(t, clientId))));
      ReportSendsNothing(cfg, Run(cfg, s, before), Report(t, clientId));
      ReportIsOfItsJob(t, clientId);
      assert SentAroundReport(cfg, s, t, clientId, before, []);
    } else {
      forall before, after | SentAroundReport(cfg, s, t, clientId, before, after) ensures false {
        if Finished(s, id) {
          FinishedIsNotSentAround(cfg, s, t, clientId, before, after);
        } else {
          NotSentAgainOnceHeardOf(cfg, s, before, t, clientId, after);
        }
      }
    }
  }

  lemma RunNothing(cfg: Config, s: Server)
    ensures Run(cfg, s, []) == s
  {
  }

  lemma ReportIsOfItsJob(t: Task, clientId: string)
    requires IsTask(t)
    ensures Report(t, clientId).jobId == t.jobId
  {
  }

  lemma FinishedIsNotSentAround(cfg: Config, s: Server, t: Task, clientId: string, before: seq<Step>, after: seq<Step>)
    requires IsTask(t) && Finished(s, t.jobId)
    ensures !SentAroundReport(cfg, s, t, clientId, before, after)
  {
    hide Next, Run, TimesSent, FromClient, Report;
    if SentAroundReport(cfg, s, t, clientId, before, after) {
      FinishedIsNeverSent(cfg, s, before, t.jobId);
      var heard := Run(cfg, s, before);
      FinishedIsClosed(cfg, heard, Complete(Report(t, clientId)), t.jobId);
      FinishedIsNeverSent(cfg, Next(cfg, heard, Complete(Report(t, clientId))), after, t.jobId);
    }
  }

  /** A queued job is streamed twice, both attempts fail plainly, the first of
      the two backoffs elapses, the job is streamed again and a page is being
      sent to the printer. */
  function TwoRetries(cfg: Config, s: Server, c: Completion): Server {
    var failed := Next(cfg, Next(cfg, AfterBoth(cfg, s, c.jobId), Complete(c)), Complete(c));
    var third := Next(cfg, Next(cfg, failed, Backoff(|s.waiting|)), Send(c.jobId, true));
    Next(cfg, third, Status(UpdateOf(OkEvent(c.jobId, PrintStage.Sending))))
  }

  function AfterBoth(cfg: Config, s: Server, id: string): Server {
    Next(cfg, Next(cfg, s, Send(id, true)), Send(id, true))
  }

  lemma AfterBothIs(cfg: Config, s: Server, id: string)
    requires id in s.jobs && s.jobs[id].state == JobState.Queued
    ensures (var sent := AfterBoth(cfg, s, id);
             && sent.jobs == s.jobs && sent.waiting == s.waiting
             && TimesSent(sent, id) == TimesSent(s, id) + 2)
  {
    hide TimesSent;
    SentOne(s, id, id, true);
    SentOne(Next(cfg, s, Send(id, true)), id, id, true);
  }

  /** Each plain failure schedules its own retry. */
  lemma BothFail(cfg: Config, s: Server, c: Completion)
    requires c.jobId in s.jobs && !IsFinished(s.jobs[c.jobId].state) && s.jobs[c.jobId].retryCount < cfg.maxRetries
    requires !c.success && !c.unconfirmed
    ensures (var failed, k := Next(cfg, Next(cfg, s, Complete(c)), Complete(c)), |s.waiting|;
             && failed.sent == s.sent && c.jobId in failed.jobs && failed.jobs[c.jobId].state == JobState.Failed
             && |failed.waiting| == k + 2 && failed.waiting[k].jobId == c.jobId && failed.waiting[k + 1].jobId == c.jobId)
  {
    hide BackoffSecs;
  }

  lemma FirstBackoff(cfg: Config, s: Server, k: nat, id: string)
    requires |s.waiting| == k + 2 && s.waiting[k].jobId == id && s.waiting[k + 1].jobId == id
    requires id in s.jobs && s.jobs[id].state == JobState.Failed
    ensures (var third := Next(cfg, Next(cfg, s, Backoff(k)), Send(id, true));
             && id in third.jobs && third.jobs[id].state == JobState.Queued
             && |third.waiting| == k + 1 && third.waiting[k].jobId == id
             && TimesSent(third, id) == TimesSent(s, id) + 1)
  {
    hide TimesSent;
    var requeued := Next(cfg, s, Backoff(k));
    assert requeued.waiting[k] == s.waiting[k + 1];
    QueuedIsSent(cfg, requeued, id);
    SentIsTimesSent(s, requeued, id);
  }

  lemma NowPrinting(cfg: Config, s: Server, id: string)
    requires id in s.jobs && !IsFinished(s.jobs[id].state)
    ensures (var told := Next(cfg, s, Status(UpdateOf(OkEvent(id, PrintStage.Sending))));
             && id in told.jobs && told.jobs[id].state == JobState.Printing
             && told.jobs[id].retryCount == s.jobs[id].retryCount
             && told.waiting == s.waiting && told.sent == s.sent)
  {
  }

  /** So the condition is met after an ordinary run: the third delivery is
      being printed and a retry of it still waits; then whatever task prints
      it, accepted or not, the job can be sent a fourth time before its
      report. */
  lemma AcceptedJobIsSentAgainBeforeItsReport(cfg: Config, s: Server, c: Completion, t: Task, clientId: string)
    requires c.jobId in s.jobs && s.jobs[c.jobId].state == JobState.Queued && s.jobs[c.jobId].retryCount < cfg.maxRetries
    requires !c.success && !c.unconfirmed
    requires IsTask(t) && t.jobId == c.jobId && Accepted(EventsByReport(t)) && !FailsAfterAcceptance(t)
    ensures (var told := TwoRetries(cfg, s, c);
             && c.jobId in told.jobs && told.jobs[c.jobId].state == JobState.Printing
             && TimesSent(told, c.jobId) == TimesSent(s, c.jobId) + 3
             && exists before, after :: SentAroundReport(cfg, told, t, clientId, before, after))
  {
    hide Next, TimesSent, Accepted, EventsByReport, FailsAfterAcceptance, SentAroundReport, AfterBoth;
    var id, k := c.jobId, |s.waiting|;
    AfterBothIs(cfg, s, id);
    var sent := AfterBoth(cfg, s, id);
    BothFail(cfg, sent, c);
    var failed := Next(cfg, Next(cfg, sent, Complete(c)), Complete(c));
    SentIsTimesSent(sent, failed, id);
    FirstBackoff(cfg, failed, k, id);
    var third := Next(cfg, Next(cfg, failed, Backoff(k)), Send(id, true));
    NowPrinting(cfg, third, id);
    var told := TwoRetries(cfg, s, c);
    SentIsTimesSent(third, told, id);
    assert told.waiting[k].jobId == id;
    SentAroundReportIff(cfg, told, t, clientId);
  }

  /** The same with the reaper among the steps. */
  ghost predicate SendsReaping(cfg: Config, s: Server, id: string, steps: seq<Step>) {
    && (forall i :: 0 <= i < |steps| ==> Reaping(steps[i], id))
    && TimesSent(Run(cfg, s, steps), id) > TimesSent(s, id)
  }

  predicate Reaping(step: Step, id: string) {
    (Quiet(step, id) || step.Reap?) && FromClient(step, id)
  }

  /** With the reaper among the steps, a job that left the queue can be sent
      again before its report if and only if it is unfinished and a retry of it
      waits, the reaper found it stale, or it is below its retry limit: then the
      reaper can still find it while it is printed, accepted or not. */
  lemma ReaperSendsAgainIff(cfg: Config, s: Server, id: string)
    requires id in s.jobs && s.jobs[id].state != JobState.Queued
    ensures (exists steps :: SendsReaping(cfg, s, id, steps))
       <==> !Finished(s, id) && (!NoRetryWaiting(s, id) || id in s.stale || s.jobs[id].retryCount < cfg.maxRetries)
  {
    hide Next, Run, TimesSent, FromClient, SendsReaping, AllQuiet, Reaping;
    if Finished(s, id) {
      forall steps ensures !SendsReaping(cfg, s, id, steps) {
        FinishedIsNotReaped(cfg, s, id, steps);
      }
    } else if !NoRetryWaiting(s, id) {
      var k :| 0 <= k < |s.waiting| && s.waiting[k].jobId == id;
      WaitingRetrySends(cfg, s, k, id);
      QuietIsReaping(cfg, s, id, [Backoff(k), Send(id, true)]);
    } else if id in s.stale {
      StaleIsSent(cfg, s, id);
    } else if s.jobs[id].retryCount < cfg.maxRetries {
      FoundStaleIsSent(cfg, s, id);
    } else {
      forall steps ensures !SendsReaping(cfg, s, id, steps) {
        SpentIsNotReaped(cfg, s, id, steps);
      }
    }
  }

  lemma FinishedIsNotReaped(cfg: Config, s: Server, id: string, steps: seq<Step>)
    requires Finished(s, id)
    ensures !SendsReaping(cfg, s, id, steps)
  {
    hide Next, Run, TimesSent, FromClient;
    if SendsReaping(cfg, s, id, steps) {
      assert forall i :: 0 <= i < |steps| ==> Reaping(steps[i], id) && !Pushes(steps[i], id);
      FinishedIsNeverSent(cfg, s, steps, id);
    }
  }

  lemma QuietIsReaping(cfg: Config, s: Server, id: string, steps: seq<Step>)
    requires SendsQuietly(cfg, s, id, steps)
    ensures SendsReaping(cfg, s, id, steps)
  {
    hide Run, TimesSent, FromClient, Quiet;
  }

  lemma StaleIsSent(cfg: Config, s: Server, id: string)
    requires id in s.jobs && Requeueable(s.jobs[id].state) && id in s.stale
    ensures SendsReaping(cfg, s, id, [Reap(id), Send(id, true)])
  {
    hide TimesSent, Run;
    var requeued := Next(cfg, s, Reap(id));
    TwoSteps(cfg, s, Reap(id), Send(id, true));
    QueuedIsSent(cfg, requeued, id);
    SentIsTimesSent(s, requeued, id);
  }

  lemma FoundStaleIsSent(cfg: Config, s: Server, id: string)
    requires id in s.jobs && Requeueable(s.jobs[id].state) && s.jobs[id].retryCount < cfg.maxRetries
    ensures (var told := Status(UpdateOf(OkEvent(id, PrintStage.Sending)));
             SendsReaping(cfg, s, id, [told, FindStale(id)] + [Reap(id), Send(id, true)]))
  {
    hide TimesSent, Run;
    var told := Status(UpdateOf(OkEvent(id, PrintStage.Sending)));
    var found := Next(cfg, Next(cfg, s, told), FindStale(id));
    NowPrinting(cfg, s, id);
    TwoSteps(cfg, s, told, FindStale(id));
    RunAppend(cfg, s, [told, FindStale(id)], [Reap(id), Send(id, true)]);
    StaleIsSent(cfg, found, id);
    SentIsTimesSent(s, found, id);
  }

  /** Nothing is left that could requeue the job. */
  ghost predicate Spent(cfg: Config, s: Server, id: string) {
    && id in s.jobs && s.jobs[id].state != JobState.Queued && s.jobs[id].retryCount >= cfg.maxRetries
    && NoRetryWaiting(s, id) && id !in s.stale
  }

  lemma SpentStep(cfg: Config, s: Server, step: Step, id: string)
    requires Spent(cfg, s, id) && Reaping(step, id)
    ensures Spent(cfg, Next(cfg, s, step), id)
  {
    hide BackoffSecs, StoredState, IsForwarded;
    if Quiet(step, id) {
      QuietStep(cfg, s, step, id);
      OneStepQueues(cfg, s, step, id);
    }
  }

  lemma {:induction false} SpentRun(cfg: Config, s: Server, steps: seq<Step>, id: string)
    requires Spent(cfg, s, id) && forall i :: 0 <= i < |steps| ==> Reaping(steps[i], id)
    ensures TimesSent(Run(cfg, s, steps), id) == TimesSent(s, id)
    decreases |steps|
  {
    hide Next, Reaping, TimesSent;
    if steps != [] {
      SpentStep(cfg, s, steps[0], id);
      UnqueuedIsNotSent(cfg, s, steps[0], id);
      SpentRun(cfg, Next(cfg, s, steps[0]), steps[1..], id);
    }
  }

  lemma SpentIsNotReaped(cfg: Config, s: Server, id: string, steps: seq<Step>)
    requires Spent(cfg, s, id)
    ensures !SendsReaping(cfg, s, id, steps)
  {
    hide Run, TimesSent, Spent, Reaping;
    if SendsReaping(cfg, s, id, steps) {
      SpentRun(cfg, s, steps, id);
    }
  }

  // ---- No transient failure, no early end ---------------------------------------

  /** A status message that one of `events` sent. */
  ghost predicate MessageOf(u: StatusUpdate, events: seq<PrintJobEvent>) {
    exists i :: 0 <= i < |events| && IsForwarded(events[i]) && u == UpdateOf(events[i])
  }

  /** Every report on `id` is a message of `events` - any of them lost, repeated
      or late - or a completion that confirms the job. */
  ghost predicate ReportsOnly(steps: seq<Step>, id: string, events: seq<PrintJobEvent>) {
    forall i :: 0 <= i < |steps| ==>
      match steps[i]
      case Push(other, _) => other != id
      case Reap(other) => other != id
      case Status(u) => u.jobId == id ==> MessageOf(u, events)
      case Complete(c) => c.jobId == id ==> c.success || c.unconfirmed
      case _ => true
  }

  lemma {:induction false} NeverFailed(cfg: Config, s: Server, steps: seq<Step>, id: string, events: seq<PrintJobEvent>)
    requires id in s.jobs && s.jobs[id].state != JobState.Failed && NoRetryWaiting(s, id)
    requires Without(events, PrintStage.Failed) && ReportsOnly(steps, id, events)
    ensures var end := Run(cfg, s, steps);
      && id in end.jobs && end.jobs[id].state != JobState.Failed && NoRetryWaiting(end, id)
      && end.jobs[id].retryCount == s.jobs[id].retryCount
    decreases |steps|
  {
    hide Next, StoredState;
    if steps != [] {
      var next := Next(cfg, s, steps[0]);
      if steps[0].Complete? && steps[0].completion.jobId == id {
        ConfirmingCompletion(cfg, s, steps[0].completion);
      } else {
        assert Quiet(steps[0], id);
        QuietStep(cfg, s, steps[0], id);
        if steps[0].Status? && steps[0].update.jobId == id {
          var i :| 0 <= i < |events| && steps[0].update == UpdateOf(events[i]);
          StoredStateOf(events[i]);
        }
      }
      NeverFailed(cfg, next, steps[1..], id, events);
    }
  }

  /** A job that succeeds or ends unconfirmed is never stored Failed on the way,
      not even for a moment, and no retry of it is ever scheduled - whatever
      part of its status messages arrives, and in whatever order with its
      completion. */
  lemma NoTransientFailure(cfg: Config, s: Server, t: Task, steps: seq<Step>, k: nat)
    requires IsTask(t) && (Job(t).result.Ok? || IsUnconfirmed(Job(t).result))
    requires t.jobId in s.jobs && s.jobs[t.jobId].state != JobState.Failed && NoRetryWaiting(s, t.jobId)
    requires ReportsOnly(steps, t.jobId, Job(t).events) && k <= |steps|
    ensures var moment := Run(cfg, s, steps[..k]);
      && t.jobId in moment.jobs && moment.jobs[t.jobId].state != JobState.Failed
      && NoRetryWaiting(moment, t.jobId)
  {
    hide SendFrom, Run;
    JobOutcome(t.envs, t.pages, t.jobId, t.pollTimeoutMs);
    var events := Job(t).events;
    assert Without(events, PrintStage.Failed);
    NeverFailed(cfg, s, steps[..k], t.jobId, events);
  }

  lemma {:induction false} NotFinishedYet(cfg: Config, s: Server, steps: seq<Step>, id: string, events: seq<PrintJobEvent>)
    requires id in s.jobs && !IsFinished(s.jobs[id].state) && NoRetryWaiting(s, id)
    requires Undecided(events) && ReportsOnly(steps, id, events) && AllQuiet(steps, id)
    ensures var end := Run(cfg, s, steps);
      id in end.jobs && !IsFinished(end.jobs[id].state) && NoRetryWaiting(end, id)
    decreases |steps|
  {
    hide Next, StoredState;
    if steps != [] {
      QuietStep(cfg, s, steps[0], id);
      if steps[0].Status? && steps[0].update.jobId == id {
        var i :| 0 <= i < |events| && steps[0].update == UpdateOf(events[i]);
        StoredStateOf(events[i]);
      }
      NotFinishedYet(cfg, Next(cfg, s, steps[0]), steps[1..], id, events);
    }
  }

  /** A page confirmed printed never ends the job early: as long as the task's
      last event has not arrived, its status messages leave the job unfinished. */
  lemma OnlyTheLastEventFinishes(cfg: Config, s: Server, t: Task, steps: seq<Step>)
    requires IsTask(t) && !SetupFailed(t.envs(0))
    requires t.jobId in s.jobs && !IsFinished(s.jobs[t.jobId].state) && NoRetryWaiting(s, t.jobId)
    requires AllQuiet(steps, t.jobId)
    ensures Job(t).events != []
    ensures ReportsOnly(steps, t.jobId, Job(t).events[..|Job(t).events| - 1]) ==>
              !Finished(Run(cfg, s, steps), t.jobId)
  {
    hide SendFrom, Run, PlainlyFails, PagePrinted, SetupFailed;
    JobOutcome(t.envs, t.pages, t.jobId, t.pollTimeoutMs);
    var events := Job(t).events;
    if ReportsOnly(steps, t.jobId, events[..|events| - 1]) {
      NotFinishedYet(cfg, s, steps, t.jobId, events[..|events| - 1]);
    }
  }

  /** No message of a task that fails plainly finishes the job: while its
      completion is owed they are all harmless to the retries. */
  lemma FailingTaskSaysNothingFinal(t: Task, i: nat)
    requires IsTask(t) && Job(t).result.Err? && !IsUnconfirmed(Job(t).result) && i < |Job(t).events|
    ensures !IsFinished(StoredState(UpdateOf(Job(t).events[i])))
  {
    hide SendFrom, PlainlyFails, PagePrinted, SetupFailed, StoredState, UpdateOf;
    JobOutcome(t.envs, t.pages, t.jobId, t.pollTimeoutMs);
    StoredStateOf(Job(t).events[i]);
    var events := Job(t).events;
    hide IsTask;
    assert i < |events| - 1 ==> events[i] == events[..|events| - 1][i];
  }

  // ---- Streaming a job twice ------------------------------------------------------

  /** The step reports on `id`. */
  predicate IsReportOn(step: Step, id: string) {
    (step.Status? && step.update.jobId == id) || (step.Complete? && step.completion.jobId == id)
  }

  lemma {:induction false} StaysQueuedIff(cfg: Config, s: Server, steps: seq<Step>, id: string)
    requires id in s.jobs && NoRetryWaiting(s, id) && AllQuiet(steps, id)
    requires forall i :: 0 <= i < |steps| ==> FromClient(steps[i], id)
    ensures id in Run(cfg, s, steps).jobs
    ensures Run(cfg, s, steps).jobs[id].state == JobState.Queued
       <==> s.jobs[id].state == JobState.Queued && forall i :: 0 <= i < |steps| ==> !IsReportOn(steps[i], id)
    decreases |steps|
  {
    hide Next, StoredState, IsForwarded;
    if steps != [] {
      QuietStep(cfg, s, steps[0], id);
      if IsReportOn(steps[0], id) {
        StoredStateOf(steps[0].update.event.value);
        assert IsForwarded(steps[0].update.event.value);
        ForwardedStage(steps[0].update.event.value);
      }
      StaysQueuedIff(cfg, Next(cfg, s, steps[0]), steps[1..], id);
      assert forall i :: 0 < i < |steps| ==> steps[i] == steps[1..][i - 1];
    }
  }

  /** In a quiet run: exactly when not one status message of the job has reached
      the server in between. */
  lemma StreamedTwiceQuietlyIff(cfg: Config, s: Server, between: seq<Step>, id: string)
    requires id in s.jobs && s.jobs[id].state == JobState.Queued && NoRetryWaiting(s, id)
    requires AllQuiet(between, id) && forall i :: 0 <= i < |between| ==> FromClient(between[i], id)
    ensures var sentOnce := Next(cfg, s, Send(id, true));
      var later := Run(cfg, sentOnce, between);
      (TimesSent(Next(cfg, later, Send(id, true)), id) == TimesSent(later, id) + 1)
      <==> (forall i :: 0 <= i < |between| ==> !IsReportOn(between[i], id))
  {
    hide Run, TimesSent, Count, FromClient;
    var sentOnce := Next(cfg, s, Send(id, true));
    StaysQueuedIff(cfg, sentOnce, between, id);
    SentOne(Run(cfg, sentOnce, between), id, id, true);
  }

  predicate IsQueued(s: Server, id: string) {
    id in s.jobs && s.jobs[id].state == JobState.Queued
  }

  /** The steps that can put the job into the queue. */
  predicate Queues(step: Step, id: string) {
    match step
    case Push(other, _) => other == id
    case Backoff(_) => true
    case Reap(other) => other == id
    case _ => false
  }

  /** The job was queued after the first `k` steps - from the start, or put into
      the queue by the last of them - and nothing reported on it since. */
  ghost predicate QueuedSince(cfg: Config, s: Server, steps: seq<Step>, k: nat, id: string) {
    && k <= |steps| && IsQueued(Run(cfg, s, steps[..k]), id)
    && (k > 0 ==> Queues(steps[k - 1], id) && !IsQueued(Run(cfg, s, steps[..k - 1]), id))
    && forall i :: k <= i < |steps| ==> !IsReportOn(steps[i], id)
  }

  lemma OneStepQueues(cfg: Config, s: Server, step: Step, id: string)
    requires FromClient(step, id)
    ensures IsQueued(Next(cfg, s, step), id) && !IsQueued(s, id) ==> Queues(step, id)
    ensures IsQueued(s, id) ==> (IsQueued(Next(cfg, s, step), id) <==> !IsReportOn(step, id))
  {
    hide BackoffSecs, StoredState, IsForwarded;
    if step.Status? && step.update.jobId == id {
      StoredStateOf(step.update.event.value);
      ForwardedStage(step.update.event.value);
    } else if step.Complete? {
      CompletionMoves(cfg, s, step.completion, id);
    }
  }

  lemma CompletionMoves(cfg: Config, s: Server, c: Completion, id: string)
    ensures IsQueued(s, id) ==> (IsQueued(Next(cfg, s, Complete(c)), id) <==> c.jobId != id)
    ensures IsQueued(Next(cfg, s, Complete(c)), id) ==> IsQueued(s, id)
  {
    hide BackoffSecs;
  }

  lemma LastStep(cfg: Config, s: Server, steps: seq<Step>)
    requires steps != []
    ensures Run(cfg, s, steps) == Next(cfg, Run(cfg, s, steps[..|steps| - 1]), steps[|steps| - 1])
  {
    hide Next, Run;
    var k := |steps| - 1;
    assert steps == steps[..k] + [steps[k]];
    RunAppend(cfg, s, steps[..k], [steps[k]]);
    RunOne(cfg, Run(cfg, s, steps[..k]), steps[k]);
  }

  lemma {:induction false} QueuedSinceIff(cfg: Config, s: Server, steps: seq<Step>, id: string)
    requires forall i :: 0 <= i < |steps| ==> FromClient(steps[i], id)
    ensures IsQueued(Run(cfg, s, steps), id) <==> exists k: nat :: QueuedSince(cfg, s, steps, k, id)
    decreases |steps|
  {
    hide Next, Run, IsQueued, IsReportOn, Queues, FromClient;
    var n := |steps|;
    assert steps[..n] == steps;
    if n == 0 {
      assert IsQueued(Run(cfg, s, steps), id) ==> QueuedSince(cfg, s, steps, 0, id);
    } else {
      var init, before := steps[..n - 1], Run(cfg, s, steps[..n - 1]);
      LastStep(cfg, s, steps);
      OneStepQueues(cfg, before, steps[n - 1], id);
      QueuedSinceIff(cfg, s, init, id);
      if IsQueued(Run(cfg, s, steps), id) {
        if IsQueued(before, id) {
          var k: nat :| QueuedSince(cfg, s, init, k, id);
          SinceLonger(cfg, s, steps, k, id);
        } else {
          assert QueuedSince(cfg, s, steps, n, id);
        }
      } else {
        forall k: nat ensures !QueuedSince(cfg, s, steps, k, id) {
          if QueuedSince(cfg, s, steps, k, id) && k < n {
            SinceLonger(cfg, s, steps, k, id);
          }
        }
      }
    }
  }

  lemma SinceLonger(cfg: Config, s: Server, steps: seq<Step>, k: nat, id: string)
    requires k < |steps|
    ensures QueuedSince(cfg, s, steps, k, id)
       <==> QueuedSince(cfg, s, steps[..|steps| - 1], k, id) && !IsReportOn(steps[|steps| - 1], id)
  {
    hide Run, IsQueued, IsReportOn, Queues;
    var init := steps[..|steps| - 1];
    assert init[..k] == steps[..k];
    if k > 0 {
      assert init[..k - 1] == steps[..k - 1] && init[k - 1] == steps[k - 1];
    }
    assert forall i :: k <= i < |init| ==> init[i] == steps[i];
  }

  /** Sending does not move the job. So in any run at all - completions,
      backoffs, the reaper and new pushes of the job included - a job that is
      taken again, after a reconnect for instance, is streamed again exactly
      when nothing reported on it since it was last put into the queue. */
  lemma StreamedTwiceIff(cfg: Config, s: Server, between: seq<Step>, id: string)
    requires forall i :: 0 <= i < |between| ==> FromClient(between[i], id)
    ensures var sentOnce := Next(cfg, s, Send(id, true));
      var later := Run(cfg, sentOnce, between);
      && TimesSent(Next(cfg, later, Send(id, true)), id) <= TimesSent(later, id) + 1
      && (TimesSent(Next(cfg, later, Send(id, true)), id) == TimesSent(later, id) + 1
          <==> exists k: nat :: QueuedSince(cfg, sentOnce, between, k, id))
  {
    hide Run, TimesSent, FromClient, QueuedSince;
    var sentOnce := Next(cfg, s, Send(id, true));
    QueuedSinceIff(cfg, sentOnce, between, id);
    SentOne(Run(cfg, sentOnce, between), id, id, true);
  }

  /** So a job can be streamed twice although nothing failed: all it takes is
      that its first status messages are lost. */
  lemma StreamedTwice(cfg: Config, s: Server, id: string)
    requires id in s.jobs && s.jobs[id].state == JobState.Queued
    ensures TimesSent(Run(cfg, s, [Send(id, true), Send(id, true)]), id) == TimesSent(s, id) + 2
  {
    var send := Send(id, true);
    var s1 := Next(cfg, s, send);
    SentOne(s, id, id, true);
    SentOne(s1, id, id, true);
    assert [send, send][1..] == [send];
    RunOne(cfg, s1, send);
    assert Run(cfg, s, [send, send]) == Run(cfg, s1, [send]);
  }
}
