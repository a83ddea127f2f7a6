/** The server's side of a job: stored states, the two channels on which a
    client reports (status stream and completion), retries with backoff, and
    the guard on sending. */
module Dispatch {
  import opened Common
  import opened PrintEvents

  const U64 := 0x1_0000_0000_0000_0000

  /** Finished for good as far as the client's reports go. */
  predicate IsFinished(state: JobState) {
    state == JobState.Completed || state == JobState.Cancelled || state == JobState.Unconfirmed
  }

  datatype Job = Job(state: JobState, retryCount: nat, target: Option<string>)

  /** A job streamed to a client. */
  datatype PrintJob = PrintJob(jobId: string, retryCount: nat)

  /** A requeue waiting for its backoff to elapse. */
  datatype Retry = Retry(jobId: string, delaySecs: nat)

  datatype AuditEvent = AuditEvent(jobId: string, stage: PrintStage, success: bool)

  datatype Config = Config(maxRetries: nat, retryDelaySecs: nat)

  /** `state` is the wire integer, `event` the audit event in the message. */
  datatype StatusUpdate = StatusUpdate(jobId: string, state: int, event: Option<PrintJobEvent>)

  datatype Completion = Completion(jobId: string, success: bool, unconfirmed: bool, clientId: string)

  /** Everything the server keeps: stored jobs, retries waiting, the retries
      ever scheduled, the jobs the reaper found stale, the jobs ever streamed,
      and the audit trail. */
  datatype Server = Server(
    jobs: map<string, Job>,
    waiting: seq<Retry>,
    scheduled: seq<Retry>,
    stale: set<string>,
    sent: seq<PrintJob>,
    audit: seq<AuditEvent>)

  // ---- Conditional writes of the storage ------------------------------------

  function WithState(s: Server, id: string, state: JobState): Server
    requires id in s.jobs
  {
    s.(jobs := s.jobs[id := s.jobs[id].(state := state)])
  }

  function UnlessTerminal(s: Server, id: string, state: JobState): Server {
    if id in s.jobs && !IsFinished(s.jobs[id].state) then WithState(s, id, state) else s
  }

  function CompletedToUnconfirmed(s: Server, id: string): Server {
    if id in s.jobs && s.jobs[id].state == JobState.Completed then WithState(s, id, JobState.Unconfirmed) else s
  }

  predicate Requeueable(state: JobState) {
    state == JobState.Failed || state == JobState.Downloading || state == JobState.Printing
  }

  function Requeued(s: Server, id: string): Server {
    if id in s.jobs && Requeueable(s.jobs[id].state)
    then s.(jobs := s.jobs[id := s.jobs[id].(state := JobState.Queued, retryCount := s.jobs[id].retryCount + 1)])
    else s
  }

  function Logged(s: Server, id: string, stage: PrintStage, success: bool): Server {
    s.(audit := s.audit + [AuditEvent(id, stage, success)])
  }

  // ---- Status stream ---------------------------------------------------------

  /** The stored state for a wire value; an unknown value is read as 0. */
  function ProtoStateToCore(wire: int): JobState {
    match wire
    case 2 => JobState.Downloading
    case 3 => JobState.Printing
    case 4 => JobState.Completed
    case 5 => JobState.Failed
    case 6 => JobState.Cancelled
    case 7 => JobState.Printing
    case 8 => JobState.Printing
    case _ => JobState.Queued
  }

  /** An `unconfirmed` event travels as FAILED and is stored at once. */
  function StatusUpdateState(wire: JobState, stage: Option<PrintStage>): JobState {
    if stage == Some(PrintStage.Unconfirmed) then JobState.Unconfirmed else wire
  }

  function StoredState(u: StatusUpdate): JobState {
    StatusUpdateState(ProtoStateToCore(u.state), if u.event.Some? then Some(u.event.value.stage) else None)
  }

  function AfterStatus(s: Server, u: StatusUpdate): Server {
    if u.jobId !in s.jobs then s else
    var moved := UnlessTerminal(s, u.jobId, StoredState(u));
    if u.event.Some? then Logged(moved, u.event.value.jobId, u.event.value.stage, u.event.value.success) else moved
  }

  // ---- Completion ------------------------------------------------------------

  function BackoffSecs(cfg: Config, retryCount: nat): nat {
    var factor := Power2(if retryCount < 6 then retryCount else 6);
    if cfg.retryDelaySecs * factor < U64 then cfg.retryDelaySecs * factor else U64 - 1
  }

  function Power2(n: nat): (p: nat)
    ensures p >= 1
  {
    if n == 0 then 1 else 2 * Power2(n - 1)
  }

  predicate OtherClient(s: Server, c: Completion) {
    c.jobId in s.jobs && s.jobs[c.jobId].target.Some? && c.clientId != "" && c.clientId != s.jobs[c.jobId].target.value
  }

  /** A failure reported for the job, after its audit event. */
  function AfterFailure(cfg: Config, s: Server, id: string): Server {
    if id !in s.jobs then s
    else if IsFinished(s.jobs[id].state) then
      if s.jobs[id].state == JobState.Completed
      then Logged(CompletedToUnconfirmed(s, id), id, PrintStage.Unconfirmed, false)
      else s
    else
      var failed := WithState(s, id, JobState.Failed);
      if s.jobs[id].retryCount < cfg.maxRetries
      then
        var retry := Retry(id, BackoffSecs(cfg, s.jobs[id].retryCount));
        failed.(waiting := s.waiting + [retry], scheduled := s.scheduled + [retry])
      else failed
  }

  function AfterCompletion(cfg: Config, s: Server, c: Completion): Server {
    var s0 := if OtherClient(s, c) then Logged(s, c.jobId, PrintStage.Completed, true) else s;
    if c.success then
      var s1 := Logged(s0, c.jobId, PrintStage.Completed, true);
      if c.jobId in s.jobs then WithState(s1, c.jobId, JobState.Completed) else s1
    else if c.unconfirmed then
      var s1 := Logged(s0, c.jobId, PrintStage.Unconfirmed, false);
      if c.jobId in s.jobs then WithState(s1, c.jobId, JobState.Unconfirmed) else s1
    else AfterFailure(cfg, Logged(s0, c.jobId, PrintStage.Failed, false), c.jobId)
  }

  // ---- Retries and sending ----------------------------------------------------

  /** The backoff of the `k`-th waiting retry elapses. */
  function AfterBackoff(s: Server, k: nat): Server {
    if k >= |s.waiting| then s
    else Requeued(s.(waiting := s.waiting[..k] + s.waiting[k + 1..]), s.waiting[k].jobId)
  }

  /** The reaper finds the job in flight for too long and below its limit; what
      is too long is up to the clock. */
  function AfterFindStale(cfg: Config, s: Server, id: string): Server {
    if id in s.jobs && (s.jobs[id].state == JobState.Downloading || s.jobs[id].state == JobState.Printing)
       && s.jobs[id].retryCount < cfg.maxRetries
    then s.(stale := s.stale + {id})
    else s
  }

  /** It comes to requeue a job it found, whatever happened to it since. */
  function AfterReap(s: Server, id: string): Server {
    if id in s.stale then Requeued(s.(stale := s.stale - {id}), id) else s
  }

  /** A job id taken from a queue or a client's channel; `connected` says
      whether the client's stream still takes it. */
  function AfterSend(s: Server, id: string, connected: bool): Server {
    if connected && id in s.jobs && s.jobs[id].state == JobState.Queued
    then s.(sent := s.sent + [PrintJob(id, s.jobs[id].retryCount)])
    else s
  }

  function AfterPush(s: Server, id: string, target: Option<string>): Server {
    s.(jobs := s.jobs[id := Job(JobState.Queued, 0, if id in s.jobs then s.jobs[id].target else target)])
  }

  /** The server as its methods work on it. */
  class DispatchService {
    const cfg: Config
    var jobs: map<string, Job>
    var waiting: seq<Retry>
    var scheduled: seq<Retry>
    var stale: set<string>
    var sent: seq<PrintJob>
    var audit: seq<AuditEvent>

    constructor (cfg: Config)
      ensures this.cfg == cfg && View() == Server(map[], [], [], {}, [], [])
    {
      this.cfg := cfg;
      jobs, waiting, scheduled, stale, sent, audit := map[], [], [], {}, [], [];
    }

    function View(): Server
      reads this
    {
      Server(jobs, waiting, scheduled, stale, sent, audit)
    }

    /** Unconditional; an unknown job is an error. */
    method UpdateState(id: string, state: JobState) returns (ok: bool)
      modifies this
      ensures ok == (id in old(jobs))
      ensures View() == if ok then WithState(old(View()), id, state) else old(View())
    {
      if id !in jobs {
        return false;
      }
      jobs := jobs[id := jobs[id].(state := state)];
      return true;
    }

    /** `None` for an unknown job, else whether the job was moved. */
    method UpdateStateUnlessTerminal(id: string, state: JobState) returns (moved: Option<bool>)
      modifies this
      ensures moved == if id in old(jobs) then Some(!IsFinished(old(jobs)[id].state)) else None
      ensures View() == UnlessTerminal(old(View()), id, state)
    {
      if id !in jobs {
        return None;
      }
      var current := jobs[id].state;
      if current == JobState.Queued || current == JobState.Downloading || current == JobState.Printing
         || current == JobState.Failed {
        jobs := jobs[id := jobs[id].(state := state)];
        return Some(true);
      }
      return Some(false);
    }

    method UnconfirmCompleted(id: string) returns (changed: bool)
      modifies this
      ensures changed == (id in old(jobs) && old(jobs)[id].state == JobState.Completed)
      ensures View() == CompletedToUnconfirmed(old(View()), id)
    {
      changed := id in jobs && jobs[id].state == JobState.Completed;
      if changed {
        jobs := jobs[id := jobs[id].(state := JobState.Unconfirmed)];
      }
    }

    /** `None` for an unknown job, else whether the job was requeued. */
    method RequeueJob(id: string) returns (requeued: Option<bool>)
      modifies this
      ensures requeued == if id in old(jobs) then Some(Requeueable(old(jobs)[id].state)) else None
      ensures View() == Requeued(old(View()), id)
    {
      if id !in jobs {
        return None;
      }
      var current := jobs[id].state;
      if current == JobState.Failed || current == JobState.Downloading || current == JobState.Printing {
        jobs := jobs[id := jobs[id].(state := JobState.Queued, retryCount := jobs[id].retryCount + 1)];
        return Some(true);
      }
      return Some(false);
    }

    method InsertJobEvent(id: string, stage: PrintStage, success: bool)
      modifies this
      ensures View() == Logged(old(View()), id, stage, success)
    {
      audit := audit + [AuditEvent(id, stage, success)];
    }

    method ApplyStatusUpdate(u: StatusUpdate) returns (ok: bool)
      modifies this
      ensures ok == (u.jobId in old(jobs))
      ensures View() == AfterStatus(old(View()), u)
    {
      var stage := if u.event.Some? then Some(u.event.value.stage) else None;
      var state := StatusUpdateState(ProtoStateToCore(u.state), stage);
      var applied := UpdateStateUnlessTerminal(u.jobId, state);
      if applied.None? {
        return false;
      }
      if u.event.Some? {
        InsertJobEvent(u.event.value.jobId, u.event.value.stage, u.event.value.success);
      }
      return true;
    }

    method CompleteJob(c: Completion) returns (ok: bool)
      modifies this
      ensures ok == (c.jobId in old(jobs))
      ensures View() == AfterCompletion(cfg, old(View()), c)
    {
      if c.jobId in jobs && jobs[c.jobId].target.Some? && c.clientId != "" && c.clientId != jobs[c.jobId].target.value {
        InsertJobEvent(c.jobId, PrintStage.Completed, true);
      }
      if c.success {
        InsertJobEvent(c.jobId, PrintStage.Completed, true);
        ok := UpdateState(c.jobId, JobState.Completed);
        return;
      }
      if c.unconfirmed {
        InsertJobEvent(c.jobId, PrintStage.Unconfirmed, false);
        ok := UpdateState(c.jobId, JobState.Unconfirmed);
        return;
      }
      InsertJobEvent(c.jobId, PrintStage.Failed, false);
      ok := FailJob(c.jobId);
    }

    /** The failure branch of `CompleteJob`. */
    method FailJob(id: string) returns (ok: bool)
      modifies this
      ensures ok == (id in old(jobs))
      ensures View() == AfterFailure(cfg, old(View()), id)
    {
      var marked := UpdateStateUnlessTerminal(id, JobState.Failed);
      if marked.None? {
        return false;
      }
      if !marked.value {
        var unconfirmed := UnconfirmCompleted(id);
        if unconfirmed {
          InsertJobEvent(id, PrintStage.Unconfirmed, false);
        }
        return true;
      }
      if jobs[id].retryCount < cfg.maxRetries {
        var retry := Retry(id, BackoffSecs(cfg, jobs[id].retryCount));
        waiting, scheduled := waiting + [retry], scheduled + [retry];
      }
      return true;
    }

    method ElapseBackoff(k: nat)
      requires k < |waiting|
      modifies this
      ensures View() == AfterBackoff(old(View()), k)
    {
      var id := waiting[k].jobId;
      waiting := waiting[..k] + waiting[k + 1..];
      var requeued := RequeueJob(id);
    }

    /** The reaper's search meets the job; `expired` if it was last written before
        the cutoff. */
    method FindStale(id: string, expired: bool)
      modifies this
      ensures View() == if expired then AfterFindStale(cfg, old(View()), id) else old(View())
    {
      if expired && id in jobs && (jobs[id].state == JobState.Downloading || jobs[id].state == JobState.Printing) {
        if jobs[id].retryCount < cfg.maxRetries {
          stale := stale + {id};
        }
      }
    }

    method Reap(id: string)
      requires id in stale
      modifies this
      ensures View() == AfterReap(old(View()), id)
    {
      stale := stale - {id};
      var requeued := RequeueJob(id);
    }

    method SendJob(id: string, connected: bool) returns (ok: bool)
      modifies this
      ensures !ok <==> !connected && id in jobs && jobs[id].state == JobState.Queued
      ensures View() == AfterSend(old(View()), id, connected)
    {
      if id !in jobs || jobs[id].state != JobState.Queued {
        return true;
      }
      if !connected {
        return false;
      }
      sent := sent + [PrintJob(id, jobs[id].retryCount)];
      return true;
    }
  }

  // ---- Runs ---------------------------------------------------------------------

  /** Everything that can happen to the server, in any order: a job is pushed,
      a client's report arrives on either channel, a backoff elapses, the
      reaper finds a stale job or requeues one, a job id is taken to be sent. */
  datatype Step =
    | Push(id: string, target: Option<string>)
    | Status(update: StatusUpdate)
    | Complete(completion: Completion)
    | Backoff(k: nat)
    | FindStale(id: string)
    | Reap(id: string)
    | Send(id: string, connected: bool)

  function Next(cfg: Config, s: Server, step: Step): Server {
    match step
    case Push(id, target) => AfterPush(s, id, target)
    case Status(u) => AfterStatus(s, u)
    case Complete(c) => AfterCompletion(cfg, s, c)
    case Backoff(k) => AfterBackoff(s, k)
    case FindStale(id) => AfterFindStale(cfg, s, id)
    case Reap(id) => AfterReap(s, id)
    case Send(id, connected) => AfterSend(s, id, connected)
  }

  function Run(cfg: Config, s: Server, steps: seq<Step>): Server
    decreases |steps|
  {
    if steps == [] then s else Run(cfg, Next(cfg, s, steps[0]), steps[1..])
  }

  predicate Finished(s: Server, id: string) {
    && id in s.jobs
    && (s.jobs[id].state == JobState.Completed || s.jobs[id].state == JobState.Cancelled
        || s.jobs[id].state == JobState.Unconfirmed)
  }

  /** The times the job was streamed to a client. */
  function TimesSent(s: Server, id: string): nat {
    Count(s.sent, (p: PrintJob) => p.jobId == id)
  }

  predicate Pushes(step: Step, id: string) {
    step.Push? && step.id == id
  }

  lemma {:induction false} RunAppend(cfg: Config, s: Server, a: seq<Step>, b: seq<Step>)
    ensures Run(cfg, s, a + b) == Run(cfg, Run(cfg, s, a), b)
    decreases |a|
  {
    if a == [] {
      assert a + b == b;
    } else {
      assert (a + b)[0] == a[0] && (a + b)[1..] == a[1..] + b;
      RunAppend(cfg, Next(cfg, s, a[0]), a[1..], b);
    }
  }

  lemma RunOne(cfg: Config, s: Server, step: Step)
    ensures Run(cfg, s, [step]) == Next(cfg, s, step)
  {
    assert [step][1..] == [];
    assert Run(cfg, Next(cfg, s, step), []) == Next(cfg, s, step);
  }

  lemma SentOne(s: Server, id: string, other: string, connected: bool)
    ensures TimesSent(AfterSend(s, other, connected), id)
         == TimesSent(s, id) + if connected && other == id && id in s.jobs && s.jobs[id].state == JobState.Queued then 1 else 0
  {
    var p := (p: PrintJob) => p.jobId == id;
    if connected && other in s.jobs && s.jobs[other].state == JobState.Queued {
      var more := s.sent + [PrintJob(other, s.jobs[other].retryCount)];
      assert more[..|more| - 1] == s.sent;
    }
  }

  /** Only a queued job is sent. */
  lemma UnqueuedIsNotSent(cfg: Config, s: Server, step: Step, id: string)
    requires id in s.jobs && s.jobs[id].state != JobState.Queued
    ensures TimesSent(Next(cfg, s, step), id) == TimesSent(s, id)
  {
    hide BackoffSecs, Count, StoredState;
    if step.Send? {
      SentOne(s, id, step.id, step.connected);
    }
  }

  /** The finished states are closed: a job leaves them in one step exactly
      when its id is pushed again. */
  lemma FinishedIsClosed(cfg: Config, s: Server, step: Step, id: string)
    requires Finished(s, id)
    ensures Finished(Next(cfg, s, step), id) <==> !Pushes(step, id)
    ensures !Pushes(step, id) ==> TimesSent(Next(cfg, s, step), id) == TimesSent(s, id)
    ensures !Pushes(step, id) ==> Next(cfg, s, step).jobs[id].retryCount == s.jobs[id].retryCount
  {
    hide BackoffSecs, StoredState, TimesSent;
    UnqueuedIsNotSent(cfg, s, step, id);
  }

  /** Among the finished states a job still moves, in exactly these ways: any
      of them becomes completed by a success and unconfirmed by an unconfirmed
      completion, and completed becomes unconfirmed by a failure. */
  lemma MovesAmongFinished(cfg: Config, s: Server, step: Step, id: string)
    requires Finished(s, id) && !Pushes(step, id)
    ensures id in Next(cfg, s, step).jobs
    ensures var was, now := s.jobs[id].state, Next(cfg, s, step).jobs[id].state;
      now == if !(step.Complete? && step.completion.jobId == id) then was
             else if step.completion.success then JobState.Completed
             else if step.completion.unconfirmed || was == JobState.Completed then JobState.Unconfirmed
             else was
  {
    hide BackoffSecs, StoredState;
  }

  /** After the step that finishes a job no later step sends it, in any run
      that does not push its id again. */
  lemma {:induction false} FinishedIsNeverSent(cfg: Config, s: Server, steps: seq<Step>, id: string)
    requires Finished(s, id) && forall i :: 0 <= i < |steps| ==> !Pushes(steps[i], id)
    ensures Finished(Run(cfg, s, steps), id)
    ensures TimesSent(Run(cfg, s, steps), id) == TimesSent(s, id)
    ensures Run(cfg, s, steps).jobs[id].retryCount == s.jobs[id].retryCount
    decreases |steps|
  {
    hide Next, TimesSent;
    if steps != [] {
      FinishedIsClosed(cfg, s, steps[0], id);
      FinishedIsNeverSent(cfg, Next(cfg, s, steps[0]), steps[1..], id);
    }
  }

  /** No backoff of the job is running. */
  ghost predicate NoRetryWaiting(s: Server, id: string) {
    forall k :: 0 <= k < |s.waiting| ==> s.waiting[k].jobId != id
  }

  /** The step neither pushes, completes nor reaps `id`: its status messages,
      sends of it, and everything that happens to other jobs. */
  predicate Quiet(step: Step, id: string) {
    match step
    case Push(other, _) => other != id
    case Complete(c) => c.jobId != id
    case Reap(other) => other != id
    case _ => true
  }

  ghost predicate AllQuiet(steps: seq<Step>, id: string) {
    forall i :: 0 <= i < |steps| ==> Quiet(steps[i], id)
  }

  lemma QuietStep(cfg: Config, s: Server, step: Step, id: string)
    requires id in s.jobs && NoRetryWaiting(s, id) && Quiet(step, id)
    ensures var next := Next(cfg, s, step);
      && id in next.jobs && NoRetryWaiting(next, id)
      && next.jobs[id].retryCount == s.jobs[id].retryCount
      && next.jobs[id].state == if step.Status? && step.update.jobId == id && !IsFinished(s.jobs[id].state)
                                then StoredState(step.update) else s.jobs[id].state
  {
    hide BackoffSecs, ProtoStateToCore;
    if step.Backoff? && step.k < |s.waiting| {
      assert s.waiting[step.k].jobId != id;
      var rest := s.waiting[..step.k] + s.waiting[step.k + 1..];
      assert Next(cfg, s, step).waiting == rest;
      assert forall r :: r in rest ==> r in s.waiting;
    }
  }

  /** No message stores the job as queued again. */
  ghost predicate NeverQueuedAgain(steps: seq<Step>, id: string) {
    forall i :: 0 <= i < |steps| && steps[i].Status? && steps[i].update.jobId == id ==>
      StoredState(steps[i].update) != JobState.Queued
  }

  lemma {:induction false} NotQueuedIsNotSent(cfg: Config, s: Server, steps: seq<Step>, id: string)
    requires id in s.jobs && s.jobs[id].state != JobState.Queued && NoRetryWaiting(s, id)
    requires AllQuiet(steps, id) && NeverQueuedAgain(steps, id)
    ensures TimesSent(Run(cfg, s, steps), id) == TimesSent(s, id)
    decreases |steps|
  {
    hide Next, StoredState, Count;
    if steps != [] {
      QuietStep(cfg, s, steps[0], id);
      UnqueuedIsNotSent(cfg, s, steps[0], id);
      assert forall i :: 0 <= i < |steps| - 1 ==> steps[1..][i] == steps[i + 1];
      NotQueuedIsNotSent(cfg, Next(cfg, s, steps[0]), steps[1..], id);
    }
  }

  lemma {:induction false} QuietSteps(cfg: Config, s: Server, steps: seq<Step>, id: string)
    requires id in s.jobs && NoRetryWaiting(s, id) && AllQuiet(steps, id)
    ensures var end := Run(cfg, s, steps);
      && id in end.jobs && NoRetryWaiting(end, id)
      && end.jobs[id].retryCount == s.jobs[id].retryCount
      && (IsFinished(s.jobs[id].state) ==> end.jobs[id].state == s.jobs[id].state)
    decreases |steps|
  {
    hide Next, StoredState;
    if steps != [] {
      QuietStep(cfg, s, steps[0], id);
      QuietSteps(cfg, Next(cfg, s, steps[0]), steps[1..], id);
    }
  }

  /** With no requeue pending, an attempt that succeeds leaves the job
      completed and one that ends unconfirmed leaves it unconfirmed, with its
      retry count unchanged, however its status messages - all, some or none of
      them - fall before and after the completion. */
  lemma AttemptEnds(cfg: Config, s: Server, before: seq<Step>, c: Completion, after: seq<Step>)
    requires c.jobId in s.jobs && NoRetryWaiting(s, c.jobId)
    requires AllQuiet(before, c.jobId) && AllQuiet(after, c.jobId)
    requires c.success || c.unconfirmed
    ensures var end := Run(cfg, s, before + [Complete(c)] + after);
      && c.jobId in end.jobs
      && end.jobs[c.jobId].state == (if c.success then JobState.Completed else JobState.Unconfirmed)
      && end.jobs[c.jobId].retryCount == s.jobs[c.jobId].retryCount
      && NoRetryWaiting(end, c.jobId)
  {
    hide Next, StoredState, Quiet;
    var s1 := Run(cfg, s, before);
    var s2 := Next(cfg, s1, Complete(c));
    RunAppend(cfg, s, before, [Complete(c)]);
    RunAppend(cfg, s, before + [Complete(c)], after);
    RunOne(cfg, s1, Complete(c));
    QuietSteps(cfg, s, before, c.jobId);
    ConfirmingCompletion(cfg, s1, c);
    QuietSteps(cfg, s2, after, c.jobId);
  }

  lemma ConfirmingCompletion(cfg: Config, s: Server, c: Completion)
    requires c.jobId in s.jobs && (c.success || c.unconfirmed)
    ensures var next := Next(cfg, s, Complete(c));
      && next.waiting == s.waiting && next.sent == s.sent && next.scheduled == s.scheduled
      && c.jobId in next.jobs
      && next.jobs[c.jobId].retryCount == s.jobs[c.jobId].retryCount
      && next.jobs[c.jobId].state == if c.success then JobState.Completed else JobState.Unconfirmed
  {
  }

  // ---- The audit trail and the wire states ------------------------------------------

  /** What a completion adds to the audit trail: first, if another client than
      the one the job was routed to reports it, that; then the outcome reported;
      and a failure of a completed job also that it is unconfirmed now. */
  lemma CompletionIsLogged(cfg: Config, s: Server, c: Completion)
    ensures (var fromOther := c.jobId in s.jobs && s.jobs[c.jobId].target.Some? && c.clientId != ""
                              && c.clientId != s.jobs[c.jobId].target.value;
             var wasCompleted := c.jobId in s.jobs && s.jobs[c.jobId].state == JobState.Completed;
             AfterCompletion(cfg, s, c).audit
             == s.audit
                + (if fromOther then [AuditEvent(c.jobId, PrintStage.Completed, true)] else [])
                + (if c.success then [AuditEvent(c.jobId, PrintStage.Completed, true)]
                   else if c.unconfirmed then [AuditEvent(c.jobId, PrintStage.Unconfirmed, false)]
                   else [AuditEvent(c.jobId, PrintStage.Failed, false)]
                        + if wasCompleted then [AuditEvent(c.jobId, PrintStage.Unconfirmed, false)] else []))
  {
    hide BackoffSecs;
  }

  /** A status message adds the event it carries, if it carries one and its job
      is known. */
  lemma StatusIsLogged(s: Server, u: StatusUpdate)
    ensures AfterStatus(s, u).audit
         == s.audit + if u.jobId in s.jobs && u.event.Some?
                      then [AuditEvent(u.event.value.jobId, u.event.value.stage, u.event.value.success)] else []
  {
    hide StoredState;
    assert s.audit + [] == s.audit;
  }

  /** The integers of the wire: 2 downloading, 4 completed, 5 failed, 6
      cancelled, 3, 7 and 8 printing, and every other one queued - unless the
      event in the message says unconfirmed, which is stored whatever the
      integer. */
  lemma WireStates(u: StatusUpdate)
    ensures (var says := u.event.Some? && u.event.value.stage == PrintStage.Unconfirmed;
             && (StoredState(u) == JobState.Unconfirmed <==> says)
             && (StoredState(u) == JobState.Downloading <==> !says && u.state == 2)
             && (StoredState(u) == JobState.Completed <==> !says && u.state == 4)
             && (StoredState(u) == JobState.Failed <==> !says && u.state == 5)
             && (StoredState(u) == JobState.Cancelled <==> !says && u.state == 6)
             && (StoredState(u) == JobState.Printing <==> !says && (u.state == 3 || u.state == 7 || u.state == 8))
             && (StoredState(u) == JobState.Queued <==> !says && (u.state < 2 || u.state > 8)))
  {
  }

  /** A plain failure of an unfinished job makes it failed, and schedules one
      retry exactly below the limit. */
  lemma FailureSchedules(cfg: Config, s: Server, c: Completion)
    requires c.jobId in s.jobs && !c.success && !c.unconfirmed && !IsFinished(s.jobs[c.jobId].state)
    ensures (var next, retries := AfterCompletion(cfg, s, c), s.jobs[c.jobId].retryCount;
             && next.jobs == s.jobs[c.jobId := s.jobs[c.jobId].(state := JobState.Failed)]
             && next.waiting == s.waiting + (if retries < cfg.maxRetries then [Retry(c.jobId, BackoffSecs(cfg, retries))] else [])
             && next.sent == s.sent && next.stale == s.stale)
  {
    hide BackoffSecs;
    assert s.waiting + [] == s.waiting;
  }

  // ---- Requeues ---------------------------------------------------------------------

  /** The job was requeued: queued, with one more retry. */
  predicate WasRequeued(s: Server, next: Server, id: string) {
    && id in s.jobs
    && next.jobs == s.jobs[id := Job(JobState.Queued, s.jobs[id].retryCount + 1, s.jobs[id].target)]
  }

  predicate FailedOrInFlight(s: Server, id: string) {
    && id in s.jobs
    && (s.jobs[id].state == JobState.Failed || s.jobs[id].state == JobState.Downloading
        || s.jobs[id].state == JobState.Printing)
  }

  /** An elapsed backoff is gone, and requeues its job exactly if that failed or
      is in flight. */
  lemma BackoffRequeuesIff(cfg: Config, s: Server, k: nat)
    requires k < |s.waiting|
    ensures (var next, id := Next(cfg, s, Backoff(k)), s.waiting[k].jobId;
             && next.waiting == s.waiting[..k] + s.waiting[k + 1..]
             && if FailedOrInFlight(s, id) then WasRequeued(s, next, id) else next.jobs == s.jobs)
  {
  }

  /** The reaper finds a job exactly if it is downloading or printing, below its
      limit; and requeues one it found exactly if that failed or is in flight by
      then. */
  lemma ReaperRequeuesIff(cfg: Config, s: Server, id: string)
    ensures (var found := Next(cfg, s, FindStale(id));
             && found.jobs == s.jobs
             && (id in found.stale
                 <==> id in s.stale
                      || (id in s.jobs && (s.jobs[id].state == JobState.Downloading || s.jobs[id].state == JobState.Printing)
                          && s.jobs[id].retryCount < cfg.maxRetries)))
    ensures (var next := Next(cfg, s, Reap(id));
             && id !in next.stale
             && if id in s.stale && FailedOrInFlight(s, id) then WasRequeued(s, next, id) else next.jobs == s.jobs)
  {
  }

  /** A pushed job is queued and starts with no retries; one pushed again keeps
      the client it was routed to. */
  lemma PushedIsNew(cfg: Config, s: Server, id: string, target: Option<string>)
    ensures (var next := Next(cfg, s, Push(id, target));
             && id in next.jobs && next.jobs[id].state == JobState.Queued && next.jobs[id].retryCount == 0
             && next.jobs[id].target == (if id in s.jobs then s.jobs[id].target else target)
             && next.jobs - {id} == s.jobs - {id}
             && next.waiting == s.waiting && next.sent == s.sent && next.audit == s.audit)
  {
  }
}
