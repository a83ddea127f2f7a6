/** The fake shop's device jobs: claiming the next queued one, and the ack
    rules. */
module DeviceJobs {
  import opened Common

  datatype St = Queued | Claimed | Unknown | Done | Failed {
    predicate IsFinal() {
      Done? || Failed?
    }

    /** Jobs only ever move up. */
    function Rank(): nat {
      match this
      case Queued => 0
      case Claimed => 1
      case Unknown => 2
      case _ => 3
    }
  }

  /** `claimedAt` is missing for a job claimed before the run. */
  datatype Job = Job(id: int, state: St, claimedAt: Option<int>, indeterminateReported: bool, notReceived: bool)

  /** `not_received` is refused until this many milliseconds after a claim. */
  const NOT_RECEIVED_WINDOW := 45000

  datatype Code = NoCode | NotReceived | Indeterminate | OtherCode

  /** An ack: the job, its error code, and whether its error text says
      something. */
  datatype Ack = Ack(jobId: Option<int>, code: Code, errorText: bool)

  datatype Refusal = NotFound | NotClaimed | AfterIndeterminate | TooEarly

  datatype Answer = Refused(why: Refusal) | OkJob(id: int, state: St, duplicate: bool)

  // ---- The jobs, in the order of their ids ------------------------------------------------

  type Jobs = seq<Job>

  predicate ById(jobs: Jobs) {
    forall i, j :: 0 <= i < j < |jobs| ==> jobs[i].id < jobs[j].id
  }

  function IndexOf(jobs: Jobs, id: int): (r: Option<nat>)
    ensures r.Some? ==> r.value < |jobs| && jobs[r.value].id == id
    ensures r.None? <==> forall i :: 0 <= i < |jobs| ==> jobs[i].id != id
  {
    if jobs == [] then None
    else if jobs[|jobs| - 1].id == id then Some(|jobs| - 1)
    else IndexOf(jobs[..|jobs| - 1], id)
  }

  /** The first queued job from index `i` on. */
  function NextQueued(jobs: Jobs, i: nat): (r: Option<nat>)
    requires i <= |jobs|
    ensures r.Some? ==> i <= r.value < |jobs| && jobs[r.value].state == Queued
    ensures forall j :: i <= j < |jobs| && jobs[j].state == Queued ==> r.Some? && r.value <= j
    decreases |jobs| - i
  {
    if i == |jobs| then None else if jobs[i].state == Queued then Some(i) else NextQueued(jobs, i + 1)
  }

  // ---- The contract --------------------------------------------------------------------------

  predicate IsFailure(p: Ack) {
    p.code != NoCode || p.errorText
  }

  predicate TooSoon(j: Job, now: int) {
    j.claimedAt.Some? && now - j.claimedAt.value < NOT_RECEIVED_WINDOW
  }

  /** What an ack does to its job, and the answer. */
  function Acked(j: Job, p: Ack, now: int): (Job, Answer) {
    if j.state == Queued then (j, Refused(NotClaimed))
    else if j.state.IsFinal() then (j, OkJob(j.id, j.state, true))
    else match p.code
      case NotReceived =>
        if j.indeterminateReported then (j, Refused(AfterIndeterminate))
        else if TooSoon(j, now) then (j, Refused(TooEarly))
        else (j.(state := Failed, notReceived := true), OkJob(j.id, Failed, false))
      case Indeterminate => (j.(state := Unknown, indeterminateReported := true), OkJob(j.id, Unknown, false))
      case _ =>
        var state := if IsFailure(p) then Failed else Done;
        (j.(state := state), OkJob(j.id, state, false))
  }

  datatype Step = Claim(now: int) | Deliver(ack: Ack, now: int)

  datatype Event = NothingQueued | ClaimedJob(id: int) | Answered(answer: Answer)

  function Next(jobs: Jobs, step: Step): (Jobs, Event) {
    match step
    case Claim(now) =>
      (match NextQueued(jobs, 0)
       case None => (jobs, NothingQueued)
       case Some(i) => (jobs[i := jobs[i].(state := Claimed, claimedAt := Some(now))], ClaimedJob(jobs[i].id)))
    case Deliver(p, now) =>
      var at := if p.jobId.Some? then IndexOf(jobs, p.jobId.value) else None;
      match at
      case None => (jobs, Answered(Refused(NotFound)))
      case Some(i) =>
        var (job, answer) := Acked(jobs[i], p, now);
        (jobs[i := job], Answered(answer))
  }

  class Fake {
    var jobs: Jobs

    constructor (queued: Jobs)
      requires ById(queued)
      ensures jobs == queued
    {
      jobs := queued;
    }

    /** The claiming step of a poll. */
    method ClaimNext(now: int) returns (claimed: Option<int>)
      modifies this
      ensures jobs == Next(old(jobs), Claim(now)).0
      ensures Next(old(jobs), Claim(now)).1 == if claimed.Some? then ClaimedJob(claimed.value) else NothingQueued
    {
      for i := 0 to |jobs|
        invariant NextQueued(jobs, 0) == NextQueued(jobs, i)
        invariant jobs == old(jobs)
      {
        if jobs[i].state == Queued {
          jobs := jobs[i := jobs[i].(state := Claimed, claimedAt := Some(now))];
          return Some(jobs[i].id);
        }
      }
      return None;
    }

    method ApplyAck(p: Ack, now: int) returns (answer: Answer)
      modifies this
      ensures (jobs, Answered(answer)) == Next(old(jobs), Deliver(p, now))
    {
      if p.jobId.None? {
        return Refused(NotFound);
      }
      var at := IndexOf(jobs, p.jobId.value);
      if at.None? {
        return Refused(NotFound);
      }
      var i := at.value;
      var j := jobs[i];
      assert jobs[i := j] == jobs;
      if j.state == Queued {
        return Refused(NotClaimed);
      }
      var failed := p.code != NoCode || p.errorText;
      var isFinal := j.state.IsFinal();
      match p.code {
        case NotReceived =>
          if isFinal {
            return OkJob(j.id, j.state, true);
          } else if j.indeterminateReported {
            return Refused(AfterIndeterminate);
          } else if j.claimedAt.Some? && now - j.claimedAt.value < NOT_RECEIVED_WINDOW {
            return Refused(TooEarly);
          }
          jobs := jobs[i := j.(state := Failed, notReceived := true)];
          return OkJob(j.id, Failed, false);
        case Indeterminate =>
          if isFinal {
            return OkJob(j.id, j.state, true);
          }
          jobs := jobs[i := j.(state := Unknown, indeterminateReported := true)];
          return OkJob(j.id, Unknown, false);
        case _ =>
          if isFinal {
            return OkJob(j.id, j.state, true);
          }
          var state := if failed then Failed else Done;
          jobs := jobs[i := j.(state := state)];
          return OkJob(j.id, state, false);
      }
    }
  }

  // ---- Every run -----------------------------------------------------------------------------

  function Run(jobs: Jobs, steps: seq<Step>): Jobs {
    if steps == [] then jobs else Next(Run(jobs, steps[..|steps| - 1]), steps[|steps| - 1]).0
  }

  function EventAt(jobs: Jobs, steps: seq<Step>, i: nat): Event
    requires i < |steps|
  {
    Next(Run(jobs, steps[..i]), steps[i]).1
  }

  /** How often job `id` was handed out. */
  function Claims(jobs: Jobs, steps: seq<Step>, id: int): nat {
    if steps == [] then 0
    else
      var k := |steps| - 1;
      Claims(jobs, steps[..k], id) + if EventAt(jobs, steps, k) == ClaimedJob(id) then 1 else 0
  }

  /** How many acks made job `id` final. */
  function Finalised(jobs: Jobs, steps: seq<Step>, id: int): nat {
    if steps == [] then 0
    else
      var k := |steps| - 1;
      Finalised(jobs, steps[..k], id) + if Finalises(EventAt(jobs, steps, k), id) then 1 else 0
  }

  predicate Finalises(e: Event, id: int) {
    e.Answered? && e.answer.OkJob? && e.answer.id == id && !e.answer.duplicate && e.answer.state.IsFinal()
  }

  /** What is known of a job: only a failed job was not received, and then no
      indeterminate report was recorded for it. */
  predicate Honest(j: Job) {
    j.notReceived ==> j.state == Failed && !j.indeterminateReported
  }

  /** How one step may change a job. */
  predicate MayBecome(j: Job, k: Job, e: Event) {
    && k.id == j.id
    && j.state.Rank() <= k.state.Rank()
    && (j.state.IsFinal() ==> k == j)
    && (Honest(j) ==> Honest(k))
    && (e == ClaimedJob(j.id) <==> j.state == Queued && k.state != Queued)
    && (Finalises(e, j.id) <==> !j.state.IsFinal() && k.state.IsFinal())
  }

  lemma OtherJobs(jobs: Jobs, i: nat, j: nat)
    requires ById(jobs) && i < |jobs| && j < |jobs| && i != j
    ensures jobs[i].id != jobs[j].id
  {
    if i < j {
      assert jobs[i].id < jobs[j].id;
    } else {
      assert jobs[j].id < jobs[i].id;
    }
  }

  lemma StepChanges(jobs: Jobs, step: Step, i: nat)
    requires ById(jobs) && i < |jobs|
    ensures (var (t, e) := Next(jobs, step); |t| == |jobs| && MayBecome(jobs[i], t[i], e))
  {
    match step {
      case Claim(now) =>
        var at := NextQueued(jobs, 0);
        if at.Some? && at.value != i {
          OtherJobs(jobs, i, at.value);
        }
      case Deliver(p, now) =>
        var at := if p.jobId.Some? then IndexOf(jobs, p.jobId.value) else None;
        if at.Some? && at.value != i {
          OtherJobs(jobs, i, at.value);
        }
    }
  }

  lemma StepKeepsOrder(jobs: Jobs, step: Step)
    requires ById(jobs)
    ensures ById(Next(jobs, step).0)
  {
    var t := Next(jobs, step).0;
    forall i, j | 0 <= i < j < |t| ensures t[i].id < t[j].id {
      StepChanges(jobs, step, i);
      StepChanges(jobs, step, j);
    }
  }

  /** Over every run of claims and acks: jobs only move up and final jobs never
      change; a job is handed out exactly once if it was queued and no longer
      is, and never otherwise; exactly one ack finalises it if it became final,
      and none otherwise. */
  lemma {:induction false} RunChanges(jobs: Jobs, steps: seq<Step>, i: nat)
    requires ById(jobs) && i < |jobs|
    ensures ById(Run(jobs, steps)) && |Run(jobs, steps)| == |jobs|
    ensures (var j, k := jobs[i], Run(jobs, steps)[i];
             && k.id == j.id
             && j.state.Rank() <= k.state.Rank()
             && (j.state.IsFinal() ==> k == j)
             && (Honest(j) ==> Honest(k))
             && Claims(jobs, steps, j.id) == (if j.state == Queued && k.state != Queued then 1 else 0)
             && Finalised(jobs, steps, j.id) == (if !j.state.IsFinal() && k.state.IsFinal() then 1 else 0))
    decreases |steps|
  {
    hide Next, Finalises, Honest;
    if steps != [] {
      var k := |steps| - 1;
      RunChanges(jobs, steps[..k], i);
      StepChanges(Run(jobs, steps[..k]), steps[k], i);
      StepKeepsOrder(Run(jobs, steps[..k]), steps[k]);
    }
  }

  /** `not_received` comes only outside the claim window: it is recorded only
      when a step finds a claimed job, at least the window after the claim. */
  lemma NotReceivedOnlyLate(jobs: Jobs, step: Step, i: nat)
    requires ById(jobs) && i < |jobs| && !jobs[i].notReceived
    ensures Next(jobs, step).0[i].notReceived <==>
            (&& step.Deliver? && step.ack.code == NotReceived && step.ack.jobId == Some(jobs[i].id)
             && (jobs[i].state == Claimed || jobs[i].state == Unknown)
             && !jobs[i].indeterminateReported && !TooSoon(jobs[i], step.now))
  {
    if step.Deliver? {
      var at := if step.ack.jobId.Some? then IndexOf(jobs, step.ack.jobId.value) else None;
      if at.Some? && at.value != i {
        OtherJobs(jobs, i, at.value);
      }
    }
  }

  // ---- What an ack and a claim do ------------------------------------------------------------

  /** The ack is for the job and says that it went well: no error code, no
      error text. */
  predicate IsClean(p: Ack, id: int) {
    p.jobId == Some(id) && p.code == NoCode && !p.errorText
  }

  predicate InHand(j: Job) {
    j.state == Claimed || j.state == Unknown
  }

  predicate RightAfterClaim(j: Job, now: int) {
    j.claimedAt.Some? && now - j.claimedAt.value < 45000
  }

  /** Every refusal and every duplicate, exactly, and that they change
      nothing. */
  lemma AckIsRefusedIff(jobs: Jobs, p: Ack, now: int, i: nat)
    requires ById(jobs) && i < |jobs| && p.jobId == Some(jobs[i].id)
    ensures (var j, (after, e) := jobs[i], Next(jobs, Deliver(p, now));
             && e.Answered?
             && (e.answer == Refused(NotClaimed) <==> j.state == Queued)
             && (e.answer == OkJob(j.id, j.state, true) <==> j.state == Done || j.state == Failed)
             && (e.answer == Refused(AfterIndeterminate) <==> InHand(j) && p.code == NotReceived && j.indeterminateReported)
             && (e.answer == Refused(TooEarly)
                 <==> InHand(j) && p.code == NotReceived && !j.indeterminateReported && RightAfterClaim(j, now))
             && e.answer != Refused(NotFound)
             && (e.answer.Refused? || e.answer.duplicate ==> after == jobs))
  {
    FoundById(jobs, i);
  }

  lemma FoundById(jobs: Jobs, i: nat)
    requires ById(jobs) && i < |jobs|
    ensures IndexOf(jobs, jobs[i].id) == Some(i)
  {
    var at := IndexOf(jobs, jobs[i].id);
    if at.Some? && at.value != i {
      OtherJobs(jobs, i, at.value);
    }
  }

  lemma UnknownJobIsNotFound(jobs: Jobs, p: Ack, now: int)
    requires p.jobId.None? || forall i :: 0 <= i < |jobs| ==> jobs[i].id != p.jobId.value
    ensures Next(jobs, Deliver(p, now)) == (jobs, Answered(Refused(NotFound)))
  {
  }

  /** An accepted ack of a job in hand: an indeterminate one makes it unknown
      and is remembered; a clean one ends it well and any other badly, recorded
      as not received exactly when it says so. */
  lemma AckDecides(jobs: Jobs, p: Ack, now: int, i: nat)
    requires ById(jobs) && i < |jobs| && p.jobId == Some(jobs[i].id) && InHand(jobs[i])
    ensures (var j, (after, e) := jobs[i], Next(jobs, Deliver(p, now));
             e.answer.OkJob? ==>
               && |after| == |jobs|
               && e.answer == OkJob(j.id, after[i].state, false)
               && after[i] == if p.code == Indeterminate then j.(state := Unknown, indeterminateReported := true)
                              else if IsClean(p, j.id) then j.(state := Done)
                              else if p.code == NotReceived then j.(state := Failed, notReceived := true)
                              else j.(state := Failed))
  {
    FoundById(jobs, i);
  }

  /** A claim hands out the queued job of the lowest id, at this time. */
  lemma ClaimHandsOut(jobs: Jobs, now: int, i: nat)
    requires ById(jobs) && i < |jobs| && jobs[i].state == Queued
    requires forall k :: 0 <= k < i ==> jobs[k].state != Queued
    ensures Next(jobs, Claim(now)) == (jobs[i := jobs[i].(state := Claimed, claimedAt := Some(now))], ClaimedJob(jobs[i].id))
  {
  }

  lemma NothingToClaim(jobs: Jobs, now: int)
    requires forall k :: 0 <= k < |jobs| ==> jobs[k].state != Queued
    ensures Next(jobs, Claim(now)) == (jobs, NothingQueued)
  {
  }

  /** The ack of step `m` found the job in hand and ended it. */
  ghost predicate EndedBy(jobs: Jobs, steps: seq<Step>, i: nat, m: nat)
    requires ById(jobs) && i < |jobs|
  {
    && m < |steps| && steps[m].Deliver? && steps[m].ack.jobId == Some(jobs[i].id) && steps[m].ack.code != Indeterminate
    && |Run(jobs, steps[..m])| == |jobs| && InHand(Run(jobs, steps[..m])[i])
    && |Run(jobs, steps)| == |jobs|
    && var end := Run(jobs, steps)[i];
    && (end.state == Done <==> IsClean(steps[m].ack, jobs[i].id))
    && (end.state == Failed <==> !IsClean(steps[m].ack, jobs[i].id))
    && (end.notReceived <==> steps[m].ack.code == NotReceived)
  }

  /** Over every run: a job that ended, ended by one of its own acks - well
      exactly if that ack was clean, and as not received exactly if it said
      so. */
  lemma {:induction false} EndedByItsAck(jobs: Jobs, steps: seq<Step>, i: nat) returns (m: nat)
    requires ById(jobs) && i < |jobs| && !jobs[i].state.IsFinal() && !jobs[i].notReceived
    requires |Run(jobs, steps)| == |jobs| && Run(jobs, steps)[i].state.IsFinal()
    ensures EndedBy(jobs, steps, i, m)
    decreases |steps|
  {
    hide Next;
    var k := |steps| - 1;
    var front := steps[..k];
    RunChanges(jobs, front, i);
    var before := Run(jobs, front);
    if before[i].state.IsFinal() {
      m := EndedByItsAck(jobs, front, i);
      StepChanges(before, steps[k], i);
      assert front[..m] == steps[..m] && front[m] == steps[m];
    } else {
      m := k;
      NotYetReceived(jobs, front, i);
      LastAck(before, steps[k], i);
    }
  }

  lemma LastAck(before: Jobs, step: Step, i: nat)
    requires ById(before) && i < |before| && !before[i].state.IsFinal()
    requires |Next(before, step).0| == |before| && Next(before, step).0[i].state.IsFinal()
    ensures step.Deliver? && step.ack.jobId == Some(before[i].id) && step.ack.code != Indeterminate && InHand(before[i])
    ensures (var after := Next(before, step).0[i];
             && (after.state == Done <==> IsClean(step.ack, before[i].id))
             && (after.state == Failed <==> !IsClean(step.ack, before[i].id))
             && (after.notReceived <==> step.ack.code == NotReceived || before[i].notReceived))
  {
    FoundById(before, i);
  }

  lemma {:induction false} NotYetReceived(jobs: Jobs, steps: seq<Step>, i: nat)
    requires ById(jobs) && i < |jobs| && !jobs[i].notReceived
    requires |Run(jobs, steps)| == |jobs| && !Run(jobs, steps)[i].state.IsFinal()
    ensures !Run(jobs, steps)[i].notReceived
    decreases |steps|
  {
    hide Next;
    if steps != [] {
      var k := |steps| - 1;
      RunChanges(jobs, steps[..k], i);
      StepChanges(Run(jobs, steps[..k]), steps[k], i);
      if !Run(jobs, steps[..k])[i].state.IsFinal() {
        NotYetReceived(jobs, steps[..k], i);
        StepNotReceived(Run(jobs, steps[..k]), steps[k], i);
      }
    }
  }

  lemma StepNotReceived(jobs: Jobs, step: Step, i: nat)
    requires ById(jobs) && i < |jobs| && !jobs[i].notReceived
    requires |Next(jobs, step).0| == |jobs| && !Next(jobs, step).0[i].state.IsFinal()
    ensures !Next(jobs, step).0[i].notReceived
  {
  }
}
