/** Server and client together: how often a streamed job is printed. The
    receiver takes the messages of its stream one after the other and waits for
    each print task, unless the outer timeout lets it abandon one. */
module Relay {
  import opened Common
  import opened PrintEvents
  import D = Dispatch
  import F = InFlight

  /** `stream` holds the messages on their way; `busy` is the task the receiver
      waits for; `taken` and `failed` are the jobs it took from the stream to
      print, or lost with a failed download; `lost` are those whose stream broke
      before it took them. */
  datatype Relay = Relay(
    server: D.Server,
    client: F.Client,
    stream: seq<string>,
    busy: Option<nat>,
    taken: seq<string>,
    failed: seq<string>,
    lost: seq<string>)

  datatype Step =
    | OnServer(step: D.Step)
    | Take(task: nat)
    | LoseDownload
    | BreakStream
    | TakePrinter(task: nat)
    | LeavePrinter(task: nat)
    | DropGuard(task: nat)
    | Odoo(takes: bool)
    | SeeTaskEnd
    | Abandon

  /** The message that a server step sends to the client. */
  function Streamed(s: D.Server, step: D.Step): seq<string> {
    if step.Send? && step.connected && step.id in s.jobs && s.jobs[step.id].state == JobState.Queued then [step.id] else []
  }

  /** A step that is not possible leaves everything as it is. */
  function Next(cfg: D.Config, r: Relay, step: Step): Relay {
    match step
    case OnServer(s) => r.(server := D.Next(cfg, r.server, s), stream := r.stream + Streamed(r.server, s))
    case Take(task) =>
      if r.busy.Some? || r.stream == [] || task in r.client.tasks then r
      else
        var client := F.Next(r.client, F.Dispatch(task, r.stream[0]));
        r.(client := client, stream := r.stream[1..], taken := r.taken + [r.stream[0]],
           busy := if task in client.tasks then Some(task) else None)
    case LoseDownload =>
      if r.busy.Some? || r.stream == [] then r
      else r.(stream := r.stream[1..], failed := r.failed + [r.stream[0]])
    case BreakStream => r.(stream := [], lost := r.lost + r.stream)
    case TakePrinter(task) => r.(client := F.Next(r.client, F.TakePrinter(task)))
    case LeavePrinter(task) => r.(client := F.Next(r.client, F.LeavePrinter(task)))
    case DropGuard(task) => r.(client := F.Next(r.client, F.DropGuard(task)))
    case Odoo(takes) => r.(client := F.Next(r.client, if takes then F.OdooTakes else F.OdooLeaves))
    case SeeTaskEnd => if r.busy.Some? && !F.Live(r.client, r.busy.value) then r.(busy := None) else r
    case Abandon =>
      if r.busy.Some? then r.(client := F.Next(r.client, F.Timeout(r.busy.value)), busy := None) else r
  }

  function Run(cfg: D.Config, r: Relay, steps: seq<Step>): Relay
    decreases |steps|
  {
    if steps == [] then r else Run(cfg, Next(cfg, r, steps[0]), steps[1..])
  }

  /** Nothing streamed yet. */
  predicate Initial(r: Relay) {
    r.server.sent == [] && r.client == F.START && r.stream == [] && r.busy.None? && r.taken == [] && r.failed == [] && r.lost == []
  }

  // ---- The receiver waits for its task ----------------------------------------------------

  /** Every live task but the one waited for was abandoned. */
  ghost predicate OthersAbandoned(r: Relay) {
    forall t :: F.Live(r.client, t) && r.busy != Some(t) ==> r.client.tasks[t].cancelled
  }

  ghost predicate Inv(r: Relay) {
    F.Inv(r.client) && OthersAbandoned(r)
  }

  /** The step of the in-flight system a step makes, if any. */
  function ClientStep(r: Relay, step: Step): Option<F.Step> {
    match step
    case Take(task) => if r.busy.Some? || r.stream == [] then None else Some(F.Dispatch(task, r.stream[0]))
    case TakePrinter(task) => Some(F.TakePrinter(task))
    case LeavePrinter(task) => Some(F.LeavePrinter(task))
    case DropGuard(task) => Some(F.DropGuard(task))
    case Odoo(takes) => Some(if takes then F.OdooTakes else F.OdooLeaves)
    case Abandon => if r.busy.Some? then Some(F.Timeout(r.busy.value)) else None
    case _ => None
  }

  lemma StepsTheClient(cfg: D.Config, r: Relay, step: Step)
    ensures Next(cfg, r, step).client
         == if ClientStep(r, step).Some? then F.Next(r.client, ClientStep(r, step).value) else r.client
  {
    hide D.Next;
  }

  lemma StepKeepsInv(cfg: D.Config, r: Relay, step: Step)
    requires Inv(r)
    ensures Inv(Next(cfg, r, step))
  {
    hide D.Next, F.Inv;
    StepsTheClient(cfg, r, step);
    if ClientStep(r, step).Some? {
      F.InvStep(r.client, ClientStep(r, step).value);
    }
    var next := Next(cfg, r, step);
    forall t | F.Live(next.client, t) && next.busy != Some(t) ensures next.client.tasks[t].cancelled {
      assert F.Live(r.client, t) && r.busy != Some(t) ==> r.client.tasks[t].cancelled;
    }
  }

  lemma {:induction false} RunKeepsInv(cfg: D.Config, r: Relay, steps: seq<Step>)
    requires Inv(r)
    ensures Inv(Run(cfg, r, steps))
    decreases |steps|
  {
    hide Next, Inv;
    if steps != [] {
      StepKeepsInv(cfg, r, steps[0]);
      RunKeepsInv(cfg, Next(cfg, r, steps[0]), steps[1..]);
    }
  }

  /** In every run the in-flight invariant holds, and every live task but the
      one the receiver waits for was abandoned. */
  lemma Reachable(cfg: D.Config, r: Relay, steps: seq<Step>)
    requires Initial(r)
    ensures F.Inv(Run(cfg, r, steps).client) && OthersAbandoned(Run(cfg, r, steps))
  {
    hide Run, F.Inv, OthersAbandoned;
    assert Inv(r) by { InitialInv(r); }
    RunKeepsInv(cfg, r, steps);
  }

  lemma InitialInv(r: Relay)
    requires Initial(r)
    ensures Inv(r)
  {
  }

  /** An abandoned task of the job has not unwound yet. */
  ghost predicate StillUnwinding(r: Relay, id: string) {
    exists t :: F.Live(r.client, t) && r.client.tasks[t].cancelled && r.client.tasks[t].jobId == id
  }

  /** A job taken from the stream is refused if and only if an abandoned task of
      it has not unwound yet - not because it was streamed, or even printed,
      before. */
  lemma RefusedIffStillUnwinding(cfg: D.Config, r: Relay, task: nat)
    requires Inv(r) && r.busy.None? && r.stream != [] && task !in r.client.tasks
    ensures task !in Next(cfg, r, Take(task)).client.tasks <==> StillUnwinding(r, r.stream[0])
  {
    var id := r.stream[0];
    assert F.SlotsAreLive(r.client);
    if id in r.client.inFlight {
      var t :| F.Live(r.client, t) && r.client.tasks[t].jobId == id;
      assert r.client.tasks[t].cancelled;
    }
  }

  // ---- Every message is accounted for -----------------------------------------------------------

  function Times(ids: seq<string>, id: string): nat {
    Count(ids, (x: string) => x == id)
  }

  lemma TimesOne(ids: seq<string>, x: string, id: string)
    ensures Times(ids + [x], id) == Times(ids, id) + if x == id then 1 else 0
  {
    assert (ids + [x])[..|ids|] == ids;
  }

  lemma TimesBoth(a: seq<string>, b: seq<string>, id: string)
    ensures Times(a + b, id) == Times(a, id) + Times(b, id)
  {
    CountAppend(a, b, (x: string) => x == id);
  }

  lemma TimesNone(id: string)
    ensures Times([], id) == 0
  {
  }

  lemma TimesFirst(ids: seq<string>, id: string)
    requires ids != []
    ensures Times(ids[1..], id) == Times(ids, id) - if ids[0] == id then 1 else 0
  {
    CountAppend([ids[0]], ids[1..], (x: string) => x == id);
    assert [ids[0]] + ids[1..] == ids;
    assert Count([ids[0]], (x: string) => x == id) == if ids[0] == id then 1 else 0 by {
      assert [ids[0]][..0] == [];
    }
  }

  /** The tasks of the job that took the printer. */
  function Printed(c: F.Client, id: string): set<nat> {
    set t | t in c.tasks && c.tasks[t].jobId == id && !c.tasks[t].phase.Waiting?
  }

  /** Those that still wait for it. */
  function Pending(c: F.Client, id: string): set<nat> {
    set t | t in c.tasks && c.tasks[t].jobId == id && c.tasks[t].phase.Waiting?
  }

  /** Every message of the job is still in the stream, was lost with the stream
      or with its download, was refused, or has a task that waits for the printer or took
      it. */
  ghost predicate Accounted(r: Relay, id: string) {
    && Times(r.taken, id) == |Printed(r.client, id)| + |Pending(r.client, id)| + Times(r.client.suppressed, id)
    && D.TimesSent(r.server, id) == Times(r.stream, id) + Times(r.lost, id) + Times(r.taken, id) + Times(r.failed, id)
  }

  lemma TaskSets(c: F.Client, step: F.Step, id: string)
    requires !step.Dispatch?
    ensures |Printed(F.Next(c, step), id)| + |Pending(F.Next(c, step), id)| == |Printed(c, id)| + |Pending(c, id)|
    ensures F.Next(c, step).suppressed == c.suppressed
  {
    var next := F.Next(c, step);
    if step.TakePrinter? && F.InPhase(c, step.task, F.Phase.Waiting) && c.printer.None? {
      StartsPrinting(c, next, step.task, id);
    } else {
      SameWaiting(c, next, id);
    }
  }

  lemma StartsPrinting(c: F.Client, next: F.Client, task: nat, id: string)
    requires F.InPhase(c, task, F.Phase.Waiting)
    requires next.tasks == c.tasks[task := c.tasks[task].(phase := F.Phase.Printing)]
    ensures |Printed(next, id)| + |Pending(next, id)| == |Printed(c, id)| + |Pending(c, id)|
  {
    if c.tasks[task].jobId == id {
      assert Printed(next, id) == Printed(c, id) + {task} && task !in Printed(c, id);
      assert Pending(c, id) == Pending(next, id) + {task} && task !in Pending(next, id);
    } else {
      assert Printed(next, id) == Printed(c, id);
      assert Pending(next, id) == Pending(c, id);
    }
  }

  lemma SameWaiting(c: F.Client, next: F.Client, id: string)
    requires next.tasks.Keys == c.tasks.Keys
    requires forall t :: t in c.tasks ==> next.tasks[t].jobId == c.tasks[t].jobId
    requires forall t :: t in c.tasks ==> (next.tasks[t].phase.Waiting? <==> c.tasks[t].phase.Waiting?)
    ensures Printed(next, id) == Printed(c, id) && Pending(next, id) == Pending(c, id)
  {
  }

  lemma DispatchSets(c: F.Client, task: nat, jobId: string, id: string)
    requires task !in c.tasks
    ensures (var next := F.Next(c, F.Dispatch(task, jobId));
             |Printed(next, id)| + |Pending(next, id)| + Times(next.suppressed, id)
             == |Printed(c, id)| + |Pending(c, id)| + Times(c.suppressed, id) + if jobId == id then 1 else 0)
  {
    hide Times, Printed, Pending;
    if jobId in c.inFlight {
      TimesOne(c.suppressed, jobId, id);
      SameTasks(c, F.Next(c, F.Dispatch(task, jobId)), id);
    } else {
      NewTask(c, F.Next(c, F.Dispatch(task, jobId)), task, jobId, id);
    }
  }

  lemma SameTasks(c: F.Client, next: F.Client, id: string)
    requires next.tasks == c.tasks
    ensures Printed(next, id) == Printed(c, id) && Pending(next, id) == Pending(c, id)
  {
  }

  lemma NewTask(c: F.Client, next: F.Client, task: nat, jobId: string, id: string)
    requires task !in c.tasks && next.tasks == c.tasks[task := F.Task(jobId, F.Phase.Waiting, false)]
    ensures Printed(next, id) == Printed(c, id)
    ensures |Pending(next, id)| == |Pending(c, id)| + if jobId == id then 1 else 0
  {
    assert Printed(next, id) == Printed(c, id);
    if jobId == id {
      assert Pending(next, id) == Pending(c, id) + {task} && task !in Pending(c, id);
    } else {
      assert Pending(next, id) == Pending(c, id);
    }
  }

  lemma ServerSends(cfg: D.Config, s: D.Server, step: D.Step, stream: seq<string>, id: string)
    ensures D.TimesSent(D.Next(cfg, s, step), id) - D.TimesSent(s, id)
         == Times(stream + Streamed(s, step), id) - Times(stream, id)
  {
    hide D.BackoffSecs, Times, Count, D.ProtoStateToCore;
    if step.Send? {
      D.SentOne(s, id, step.id, step.connected);
    }
    if Streamed(s, step) != [] {
      TimesOne(stream, step.id, id);
    } else {
      assert stream + [] == stream;
    }
  }

  lemma StepIsAccounted(cfg: D.Config, r: Relay, step: Step, id: string)
    requires Accounted(r, id)
    ensures Accounted(Next(cfg, r, step), id)
  {
    hide D.Next, D.TimesSent, Times, Printed, Pending, Streamed, F.Next;
    StepsTheClient(cfg, r, step);
    if step.OnServer? {
      ServerSends(cfg, r.server, step.step, r.stream, id);
    } else if step.Take? {
      if r.busy.None? && r.stream != [] && step.task !in r.client.tasks {
        TimesFirst(r.stream, id);
        TimesOne(r.taken, r.stream[0], id);
        DispatchSets(r.client, step.task, r.stream[0], id);
      }
    } else if step.BreakStream? {
      TimesBoth(r.lost, r.stream, id);
      TimesNone(id);
    } else if step.LoseDownload? {
      if r.busy.None? && r.stream != [] {
        TimesFirst(r.stream, id);
        TimesOne(r.failed, r.stream[0], id);
      }
    } else if ClientStep(r, step).Some? {
      TaskSets(r.client, ClientStep(r, step).value, id);
    }
  }

  lemma {:induction false} RunIsAccounted(cfg: D.Config, r: Relay, steps: seq<Step>, id: string)
    requires Accounted(r, id)
    ensures Accounted(Run(cfg, r, steps), id)
    decreases |steps|
  {
    hide Next, Accounted;
    if steps != [] {
      StepIsAccounted(cfg, r, steps[0], id);
      RunIsAccounted(cfg, Next(cfg, r, steps[0]), steps[1..], id);
    }
  }

  lemma InitialState(r: Relay, id: string)
    requires Initial(r)
    ensures Inv(r) && Accounted(r, id)
  {
    assert Printed(r.client, id) == {} && Pending(r.client, id) == {};
  }

  /** In every run each message of a job is accounted for: the job is printed as
      often as it was streamed, less what is on its way, waits for the printer,
      was lost with a stream or a download, or was refused. */
  lemma PrintedAsOftenAsStreamed(cfg: D.Config, r: Relay, steps: seq<Step>, id: string)
    requires Initial(r)
    ensures (var end := Run(cfg, r, steps);
             |Printed(end.client, id)| + |Pending(end.client, id)| + Times(end.client.suppressed, id)
             + Times(end.stream, id) + Times(end.lost, id) + Times(end.failed, id)
             == D.TimesSent(end.server, id))
  {
    hide Run, Times, Printed, Pending, Initial, Inv, D.TimesSent;
    InitialState(r, id);
    RunIsAccounted(cfg, r, steps, id);
  }

  // ---- When nothing is refused --------------------------------------------------------------------

  /** The timeout never abandons a task of the job. */
  predicate NeverAbandoned(cfg: D.Config, r: Relay, steps: seq<Step>, id: string)
    decreases |steps|
  {
    steps != [] ==>
      && !(steps[0].Abandon? && r.busy.Some? && r.busy.value in r.client.tasks && r.client.tasks[r.busy.value].jobId == id)
      && NeverAbandoned(cfg, Next(cfg, r, steps[0]), steps[1..], id)
  }

  /** No live task of the job is cancelled, and none of its messages was
      refused. */
  ghost predicate NothingRefused(r: Relay, id: string) {
    && (forall t :: F.Live(r.client, t) && r.client.tasks[t].jobId == id ==> !r.client.tasks[t].cancelled)
    && Times(r.client.suppressed, id) == 0
  }

  lemma StepRefusesNothing(cfg: D.Config, r: Relay, step: Step, id: string)
    requires Inv(r) && NothingRefused(r, id) && NeverAbandoned(cfg, r, [step], id)
    ensures NothingRefused(Next(cfg, r, step), id)
  {
    hide D.Next, Times, Inv;
    var next := Next(cfg, r, step);
    if step.Take? && r.busy.None? && r.stream != [] && step.task !in r.client.tasks {
      TakeRefusesNothing(cfg, r, step.task, id);
    }
    forall t | F.Live(next.client, t) && next.client.tasks[t].jobId == id ensures !next.client.tasks[t].cancelled {
      assert F.Live(r.client, t) && r.client.tasks[t].jobId == id ==> !r.client.tasks[t].cancelled;
    }
  }

  lemma TakeRefusesNothing(cfg: D.Config, r: Relay, task: nat, id: string)
    requires Inv(r) && NothingRefused(r, id)
    requires r.busy.None? && r.stream != [] && task !in r.client.tasks
    ensures Times(Next(cfg, r, Take(task)).client.suppressed, id) == 0
  {
    hide Times, Inv;
    RefusedIffStillUnwinding(cfg, r, task);
    TimesOne(r.client.suppressed, r.stream[0], id);
  }

  lemma {:induction false} RunRefusesNothing(cfg: D.Config, r: Relay, steps: seq<Step>, id: string)
    requires Inv(r) && NothingRefused(r, id) && NeverAbandoned(cfg, r, steps, id)
    ensures NothingRefused(Run(cfg, r, steps), id)
    decreases |steps|
  {
    hide Next, Inv, NothingRefused;
    if steps != [] {
      StepKeepsInv(cfg, r, steps[0]);
      StepRefusesNothing(cfg, r, steps[0], id);
      RunRefusesNothing(cfg, Next(cfg, r, steps[0]), steps[1..], id);
    }
  }

  /** Unless the timeout abandons one of its tasks, every message of a job that
      reaches the printing of the client is printed - a job streamed twice
      before its first report is printed twice, even if the printer confirmed
      the first print. */
  lemma EveryMessageIsPrinted(cfg: D.Config, r: Relay, steps: seq<Step>, id: string)
    requires Initial(r) && NeverAbandoned(cfg, r, steps, id)
    ensures (var end := Run(cfg, r, steps);
             && Pending(end.client, id) == {} && Times(end.stream, id) == 0
             && Times(end.lost, id) == 0 && Times(end.failed, id) == 0 ==>
               |Printed(end.client, id)| == D.TimesSent(end.server, id))
  {
    hide Run, Times, Printed, Pending, Inv, NeverAbandoned, D.TimesSent;
    InitialState(r, id);
    NothingYet(r, id);
    RunRefusesNothing(cfg, r, steps, id);
    PrintedAsOftenAsStreamed(cfg, r, steps, id);
  }

  lemma NothingYet(r: Relay, id: string)
    requires Initial(r)
    ensures NothingRefused(r, id)
  {
  }

  // ---- A confirmed print is printed again ----------------------------------------------------------

  /** The client while it prints the first message of a job streamed twice, and
      then the second. */
  function Printing(id: string, phase: F.Phase): F.Client {
    F.Client(if phase.Over? then {} else {id}, if phase.Printing? then Some(F.GrpcTask(0)) else None,
             map[0 := F.Task(id, phase, false)], [])
  }

  function PrintingAgain(id: string, phase: F.Phase): F.Client
    requires phase.Waiting? || phase.Printing?
  {
    F.Client({id}, if phase.Printing? then Some(F.GrpcTask(1)) else None,
             map[0 := F.Task(id, F.Phase.Over, false), 1 := F.Task(id, phase, false)], [])
  }

  lemma FirstTask(id: string)
    ensures F.Next(F.START, F.Dispatch(0, id)) == Printing(id, F.Phase.Waiting)
    ensures F.Next(Printing(id, F.Phase.Waiting), F.TakePrinter(0)) == Printing(id, F.Phase.Printing)
    ensures F.Next(Printing(id, F.Phase.Printing), F.LeavePrinter(0)) == Printing(id, F.Phase.Unwinding)
    ensures F.Next(Printing(id, F.Phase.Unwinding), F.DropGuard(0)) == Printing(id, F.Phase.Over)
  {
  }

  lemma SecondTask(id: string)
    ensures F.Next(Printing(id, F.Phase.Over), F.Dispatch(1, id)) == PrintingAgain(id, F.Phase.Waiting)
    ensures F.Next(PrintingAgain(id, F.Phase.Waiting), F.TakePrinter(1)) == PrintingAgain(id, F.Phase.Printing)
    ensures |Printed(PrintingAgain(id, F.Phase.Printing), id)| == 2
  {
    assert Printed(PrintingAgain(id, F.Phase.Printing), id) == {0, 1};
  }

  /** A queued job is streamed twice to an idle client. */
  function StreamedTwice(cfg: D.Config, s: D.Server, id: string): Relay {
    var send := OnServer(D.Send(id, true));
    Next(cfg, Next(cfg, Relay(s, F.START, [], None, [], [], []), send), send)
  }

  /** The first message is taken, printed to its end, and confirmed. */
  function FirstPrint(cfg: D.Config, r: Relay, c: D.Completion): Relay {
    var printing := Next(cfg, Next(cfg, r, Take(0)), TakePrinter(0));
    var ended := Next(cfg, Next(cfg, printing, LeavePrinter(0)), DropGuard(0));
    Next(cfg, Next(cfg, ended, SeeTaskEnd), OnServer(D.Complete(c)))
  }

  /** The second message is taken and its task gets the printer. */
  function SecondPrint(cfg: D.Config, r: Relay): Relay {
    Next(cfg, Next(cfg, r, Take(1)), TakePrinter(1))
  }

  lemma StreamedTwiceIs(cfg: D.Config, s: D.Server, id: string)
    requires id in s.jobs && s.jobs[id].state == JobState.Queued
    ensures (var r := StreamedTwice(cfg, s, id);
             && r == Relay(r.server, F.START, [id, id], None, [], [], [])
             && r.server.jobs == s.jobs)
  {
    assert [] + [id] == [id] && [id] + [id] == [id, id];
  }

  lemma FirstPrintIs(cfg: D.Config, r: Relay, id: string, c: D.Completion)
    requires r == Relay(r.server, F.START, [id, id], None, [], [], [])
    ensures FirstPrint(cfg, r, c) == Relay(D.Next(cfg, r.server, D.Complete(c)), Printing(id, F.Phase.Over), [id], None, [id], [], [])
  {
    FirstTask(id);
    hide F.Next, D.Next;
    assert [id, id][1..] == [id] && [] + [id] == [id];
    var r1 := r.(client := Printing(id, F.Phase.Waiting), stream := [id], taken := [id], busy := Some(0));
    assert Next(cfg, r, Take(0)) == r1;
    var r4 := r1.(client := Printing(id, F.Phase.Over));
    assert Next(cfg, Next(cfg, Next(cfg, r1, TakePrinter(0)), LeavePrinter(0)), DropGuard(0)) == r4;
    var r5 := r4.(busy := None);
    assert Next(cfg, r4, SeeTaskEnd) == r5;
    assert r5.stream + [] == r5.stream;
  }

  lemma SecondPrintIs(cfg: D.Config, r: Relay, id: string)
    requires r == Relay(r.server, Printing(id, F.Phase.Over), [id], None, [id], [], [])
    ensures SecondPrint(cfg, r).client == PrintingAgain(id, F.Phase.Printing) && SecondPrint(cfg, r).server == r.server
  {
    SecondTask(id);
    hide F.Next, D.Next;
  }

  /** A job streamed twice before anything of it is reported - a reconnect
      delivers it again - is printed; its print is confirmed and it is stored as
      completed; and then it is printed again. */
  lemma ConfirmedJobIsPrintedAgain(cfg: D.Config, s: D.Server, id: string, c: D.Completion)
    requires id in s.jobs && s.jobs[id].state == JobState.Queued && c.jobId == id && c.success
    ensures (var confirmed := FirstPrint(cfg, StreamedTwice(cfg, s, id), c);
             var end := SecondPrint(cfg, confirmed);
             && id in confirmed.server.jobs && confirmed.server.jobs[id].state == JobState.Completed
             && end.server == confirmed.server
             && |Printed(end.client, id)| == 2)
  {
    hide FirstPrint, SecondPrint, StreamedTwice, D.Next, Printed;
    var r := StreamedTwice(cfg, s, id);
    StreamedTwiceIs(cfg, s, id);
    FirstPrintIs(cfg, r, id, c);
    D.ConfirmingCompletion(cfg, r.server, c);
    SecondPrintIs(cfg, FirstPrint(cfg, r, c), id);
    SecondTask(id);
  }
}
