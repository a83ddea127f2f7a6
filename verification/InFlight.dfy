/** The client's guard against printing one job twice at a time: the registry
    of jobs in flight, the client-wide print lock, and the print tasks that hold
    them - including tasks the outer timeout has abandoned. */
module InFlight {
  import opened Common

  // ---- The registry and the lock ----------------------------------------------

  /** Owns the slot of `jobId` until it is dropped. */
  datatype InFlightGuard = InFlightGuard(jobId: string)

  class InFlightJobs {
    var inner: set<string>

    constructor ()
      ensures inner == {}
    {
      inner := {};
    }

    method TryBegin(jobId: string) returns (guard: Option<InFlightGuard>)
      modifies this
      ensures guard == if jobId in old(inner) then None else Some(InFlightGuard(jobId))
      ensures inner == old(inner) + {jobId}
    {
      if jobId in inner {
        return None;
      }
      inner := inner + {jobId};
      return Some(InFlightGuard(jobId));
    }

    method Drop(guard: InFlightGuard)
      modifies this
      ensures inner == old(inner) - {guard.jobId}
    {
      inner := inner - {guard.jobId};
    }
  }

  /** Who talks to the printer: a print task, or the Odoo source. */
  datatype Holder = GrpcTask(task: nat) | OdooSource

  class PrintLock {
    var holder: Option<Holder>

    constructor ()
      ensures holder == None
    {
      holder := None;
    }

    /** One attempt of a blocked `hold`. */
    method TryHold(who: Holder) returns (held: bool)
      modifies this
      ensures held == old(holder).None?
      ensures holder == if held then Some(who) else old(holder)
    {
      held := holder.None?;
      if held {
        holder := Some(who);
      }
    }

    method Release(who: Holder)
      modifies this
      ensures holder == if old(holder) == Some(who) then None else old(holder)
    {
      if holder == Some(who) {
        holder := None;
      }
    }
  }

  // ---- Print tasks as a step system ----------------------------------------------

  /** A task waits for the printer, prints, unwinds with the printer released
      but its guard still held, and is over when the guard is dropped. */
  datatype Phase = Waiting | Printing | Unwinding | Over

  datatype Task = Task(jobId: string, phase: Phase, cancelled: bool)

  /** `suppressed` counts the dispatches refused per job. */
  datatype Client = Client(
    inFlight: set<string>,
    printer: Option<Holder>,
    tasks: map<nat, Task>,
    suppressed: seq<string>)

  const START := Client({}, None, map[], [])

  /** What can happen, in any order: the receiver dispatches a job, a task gets
      or leaves the printer, an outer timeout fires, a task drops its guard, the
      Odoo source takes or leaves the printer. */
  datatype Step =
    | Dispatch(task: nat, jobId: string)
    | TakePrinter(task: nat)
    | Timeout(task: nat)
    | LeavePrinter(task: nat)
    | DropGuard(task: nat)
    | OdooTakes
    | OdooLeaves

  predicate InPhase(c: Client, task: nat, phase: Phase) {
    task in c.tasks && c.tasks[task].phase == phase
  }

  predicate Live(c: Client, task: nat) {
    task in c.tasks && !c.tasks[task].phase.Over?
  }

  function WithPhase(c: Client, task: nat, phase: Phase): Client
    requires task in c.tasks
  {
    c.(tasks := c.tasks[task := c.tasks[task].(phase := phase)])
  }

  /** A step that is not possible leaves the client as it is. */
  function Next(c: Client, step: Step): Client {
    match step
    case Dispatch(task, jobId) =>
      if task in c.tasks then c
      else if jobId in c.inFlight then c.(suppressed := c.suppressed + [jobId])
      else c.(inFlight := c.inFlight + {jobId}, tasks := c.tasks[task := Task(jobId, Waiting, false)])
    case TakePrinter(task) =>
      if InPhase(c, task, Waiting) && c.printer.None?
      then WithPhase(c, task, Printing).(printer := Some(GrpcTask(task))) else c
    case Timeout(task) =>
      if Live(c, task) then c.(tasks := c.tasks[task := c.tasks[task].(cancelled := true)]) else c
    case LeavePrinter(task) =>
      if InPhase(c, task, Printing) then WithPhase(c, task, Unwinding).(printer := None) else c
    case DropGuard(task) =>
      if InPhase(c, task, Unwinding)
      then WithPhase(c, task, Over).(inFlight := c.inFlight - {c.tasks[task].jobId}) else c
    case OdooTakes => if c.printer.None? then c.(printer := Some(OdooSource)) else c
    case OdooLeaves => if c.printer == Some(OdooSource) then c.(printer := None) else c
  }

  function Run(c: Client, steps: seq<Step>): Client
    decreases |steps|
  {
    if steps == [] then c else Run(Next(c, steps[0]), steps[1..])
  }

  /** The slots are exactly those of the live tasks. */
  ghost predicate SlotsAreLive(c: Client) {
    forall id :: id in c.inFlight <==> exists t :: Live(c, t) && c.tasks[t].jobId == id
  }

  /** No two live tasks share a job. */
  ghost predicate JobsDiffer(c: Client) {
    forall t, u :: Live(c, t) && Live(c, u) && c.tasks[t].jobId == c.tasks[u].jobId ==> t == u
  }

  /** A task prints exactly when it holds the printer. */
  ghost predicate OnePrints(c: Client) {
    forall t :: InPhase(c, t, Printing) <==> c.printer == Some(GrpcTask(t))
  }

  ghost predicate Inv(c: Client) {
    SlotsAreLive(c) && JobsDiffer(c) && OnePrints(c)
  }

  lemma InvStep(c: Client, step: Step)
    requires Inv(c)
    ensures Inv(Next(c, step))
  {
    hide SlotsAreLive, JobsDiffer, OnePrints;
    if step.Dispatch? || step.DropGuard? {
      SlotsStep(c, step);
    } else {
      SlotsStay(c, step);
    }
    JobsStep(c, step);
    PrinterStep(c, step);
  }

  lemma SlotsStep(c: Client, step: Step)
    requires SlotsAreLive(c) && JobsDiffer(c) && (step.Dispatch? || step.DropGuard?)
    ensures SlotsAreLive(Next(c, step))
  {
    var next := Next(c, step);
    forall id ensures id in next.inFlight <==> exists t :: Live(next, t) && next.tasks[t].jobId == id {
      if id in next.inFlight {
        if step.Dispatch? && id !in c.inFlight {
          assert Live(next, step.task) && next.tasks[step.task].jobId == id;
        } else {
          var t :| Live(c, t) && c.tasks[t].jobId == id;
          assert Live(next, t) && next.tasks[t].jobId == id;
        }
      }
      if t :| Live(next, t) && next.tasks[t].jobId == id {
        assert Live(c, t) ==> c.tasks[t].jobId == id;
      }
    }
  }

  lemma SlotsStay(c: Client, step: Step)
    requires SlotsAreLive(c) && !step.Dispatch? && !step.DropGuard?
    ensures SlotsAreLive(Next(c, step))
  {
    var next := Next(c, step);
    assert forall t :: Live(next, t) <==> Live(c, t);
    assert forall t :: Live(c, t) ==> next.tasks[t].jobId == c.tasks[t].jobId;
    forall id ensures id in next.inFlight <==> exists t :: Live(next, t) && next.tasks[t].jobId == id {
      if id in c.inFlight {
        var t :| Live(c, t) && c.tasks[t].jobId == id;
        assert Live(next, t) && next.tasks[t].jobId == id;
      }
    }
  }

  lemma JobsStep(c: Client, step: Step)
    requires SlotsAreLive(c) && JobsDiffer(c)
    ensures JobsDiffer(Next(c, step))
  {
    var next := Next(c, step);
    forall t, u | Live(next, t) && Live(next, u) && next.tasks[t].jobId == next.tasks[u].jobId ensures t == u {
      assert Live(c, t) ==> next.tasks[t].jobId == c.tasks[t].jobId;
      assert Live(c, u) ==> next.tasks[u].jobId == c.tasks[u].jobId;
    }
  }

  lemma PrinterStep(c: Client, step: Step)
    requires OnePrints(c)
    ensures OnePrints(Next(c, step))
  {
  }

  lemma {:induction false} InvRun(c: Client, steps: seq<Step>)
    requires Inv(c)
    ensures Inv(Run(c, steps))
    decreases |steps|
  {
    hide Inv, Next;
    if steps != [] {
      InvStep(c, steps[0]);
      InvRun(Next(c, steps[0]), steps[1..]);
    }
  }

  /** In every reachable state the jobs in flight are exactly those of live
      tasks, no two live tasks share a job, and at most one task - none while
      the Odoo source prints - holds the printer. */
  lemma Reachable(steps: seq<Step>)
    ensures Inv(Run(START, steps))
    ensures var c := Run(START, steps);
      forall t, u :: InPhase(c, t, Printing) && InPhase(c, u, Printing) ==> t == u && c.printer != Some(OdooSource)
  {
    hide Next;
    assert Inv(START);
    InvRun(START, steps);
  }

  /** From its dispatch until it drops its own guard a task keeps its slot -
      through its own timeout and whatever other tasks do - so every further
      dispatch of its job is refused without touching the printer. */
  lemma {:induction false} SlotIsKept(c: Client, steps: seq<Step>, task: nat)
    requires Inv(c) && Live(c, task)
    requires forall i :: 0 <= i < |steps| ==> steps[i] != DropGuard(task)
    ensures var end, id := Run(c, steps), c.tasks[task].jobId;
      && Inv(end) && Live(end, task) && end.tasks[task].jobId == id && id in end.inFlight
      && (c.tasks[task].cancelled ==> end.tasks[task].cancelled)
      && forall again :: again !in end.tasks ==>
           Next(end, Dispatch(again, id)) == end.(suppressed := end.suppressed + [id])
    decreases |steps|
  {
    if steps != [] {
      InvStep(c, steps[0]);
      StaysLive(c, steps[0], task);
      SlotIsKept(Next(c, steps[0]), steps[1..], task);
    }
  }

  lemma StaysLive(c: Client, step: Step, task: nat)
    requires Live(c, task) && step != DropGuard(task)
    ensures var next := Next(c, step);
      && Live(next, task) && next.tasks[task].jobId == c.tasks[task].jobId
      && (c.tasks[task].cancelled ==> next.tasks[task].cancelled)
  {
  }

  /** Dropping a guard frees its own slot and no other. */
  lemma DropFreesOnlyItsSlot(c: Client, task: nat)
    requires Inv(c) && InPhase(c, task, Unwinding)
    ensures var next := Next(c, DropGuard(task));
      && next.inFlight == c.inFlight - {c.tasks[task].jobId}
      && c.tasks[task].jobId !in next.inFlight
      && forall other :: other != task && Live(c, other) ==> Live(next, other) && c.tasks[other].jobId in next.inFlight
  {
    InvStep(c, DropGuard(task));
    var next := Next(c, DropGuard(task));
    forall other | other != task && Live(c, other) ensures Live(next, other) && c.tasks[other].jobId in next.inFlight {
      assert Live(next, other) && next.tasks[other] == c.tasks[other];
    }
  }

  /** A dispatched job that is not in flight gets a task that waits, and its
      slot; one that is in flight is refused and gets neither. */
  lemma DispatchTakesASlot(c: Client, task: nat, jobId: string)
    requires task !in c.tasks
    ensures (var next := Next(c, Dispatch(task, jobId));
             && next.printer == c.printer
             && if jobId in c.inFlight
                then next.tasks == c.tasks && next.inFlight == c.inFlight && next.suppressed == c.suppressed + [jobId]
                else next.tasks == c.tasks[task := Task(jobId, Phase.Waiting, false)]
                     && next.inFlight == c.inFlight + {jobId} && next.suppressed == c.suppressed)
  {
  }

  /** The printer goes to a task that waits, and to the Odoo source, exactly if
      nobody has it; and each can only give back its own. */
  lemma PrinterIsTakenIff(c: Client, task: nat)
    requires OnePrints(c)
    ensures Next(c, TakePrinter(task)).printer == Some(GrpcTask(task)) && c.printer != Some(GrpcTask(task))
       <==> c.printer.None? && task in c.tasks && c.tasks[task].phase == Phase.Waiting
    ensures Next(c, OdooTakes).printer == if c.printer.None? then Some(OdooSource) else c.printer
    ensures Next(c, OdooLeaves).printer == if c.printer == Some(OdooSource) then None else c.printer
    ensures Next(c, LeavePrinter(task)).printer == if c.printer == Some(GrpcTask(task)) then None else c.printer
    ensures Next(c, OdooTakes).tasks == c.tasks && Next(c, OdooLeaves).tasks == c.tasks
  {
  }

  /** The timeout only tells a live task to stop. */
  lemma TimeoutOnlyTells(c: Client, task: nat)
    ensures (var next := Next(c, Timeout(task));
             && next.inFlight == c.inFlight && next.printer == c.printer && next.suppressed == c.suppressed
             && next.tasks == if Live(c, task) then c.tasks[task := c.tasks[task].(cancelled := true)] else c.tasks)
  {
  }

  // ---- The tasks as the client runs them ---------------------------------------------

  /** The receiver's print tasks over one registry and one lock. */
  class PrintTasks {
    const jobs: InFlightJobs
    const lock: PrintLock
    var tasks: map<nat, Task>
    var suppressed: seq<string>

    constructor ()
      ensures fresh(jobs) && fresh(lock) && View() == START
    {
      jobs := new InFlightJobs();
      lock := new PrintLock();
      tasks, suppressed := map[], [];
    }

    function View(): Client
      reads this, jobs, lock
    {
      Client(jobs.inner, lock.holder, tasks, suppressed)
    }

    /** `run_print_task_with_timeout`: the task holds the guard for its life. */
    method Begin(task: nat, jobId: string) returns (dispatched: bool)
      requires task !in tasks
      modifies this, jobs
      ensures View() == Next(old(View()), Dispatch(task, jobId))
      ensures dispatched == (jobId !in old(jobs.inner))
    {
      var guard := jobs.TryBegin(jobId);
      if guard.None? {
        suppressed := suppressed + [jobId];
        assert jobs.inner == old(jobs.inner);
        return false;
      }
      tasks := tasks[task := Task(guard.value.jobId, Waiting, false)];
      return true;
    }

    method Hold(task: nat)
      requires InPhase(View(), task, Waiting)
      modifies this, lock
      ensures View() == Next(old(View()), TakePrinter(task))
    {
      var held := lock.TryHold(GrpcTask(task));
      if held {
        tasks := tasks[task := tasks[task].(phase := Printing)];
      }
    }

    /** The outer timeout fires: the token is cancelled, nothing is released. */
    method TimeOut(task: nat)
      requires Live(View(), task)
      modifies this
      ensures View() == Next(old(View()), Timeout(task))
      ensures jobs.inner == old(jobs.inner) && lock.holder == old(lock.holder)
    {
      tasks := tasks[task := tasks[task].(cancelled := true)];
    }

    /** The print closure returns: its locals are dropped, the lock first. */
    method Leave(task: nat)
      requires Inv(View()) && InPhase(View(), task, Printing)
      modifies this, lock
      ensures View() == Next(old(View()), LeavePrinter(task))
    {
      lock.Release(GrpcTask(task));
      tasks := tasks[task := tasks[task].(phase := Unwinding)];
    }

    /** ... and then its guard. */
    method Finish(task: nat)
      requires InPhase(View(), task, Unwinding)
      modifies this, jobs
      ensures View() == Next(old(View()), DropGuard(task))
    {
      jobs.Drop(InFlightGuard(tasks[task].jobId));
      tasks := tasks[task := tasks[task].(phase := Over)];
    }
  }
}
