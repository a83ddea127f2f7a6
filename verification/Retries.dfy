/** How often a job that always fails plainly is sent, and the delays between
    its attempts. */
module Retries {
  import opened Common
  import opened PrintEvents
  import opened Dispatch

  function Waiting(s: Server, id: string): nat {
    Count(s.waiting, (r: Retry) => r.jobId == id)
  }

  /** The delays of the job's retries, in the order they were scheduled. */
  function Delays(scheduled: seq<Retry>, id: string): seq<nat> {
    if scheduled == [] then []
    else
      var last := scheduled[|scheduled| - 1];
      Delays(scheduled[..|scheduled| - 1], id) + if last.jobId == id then [last.delaySecs] else []
  }

  predicate PlainFailure(c: Completion) {
    !c.success && !c.unconfirmed
  }

  /** Whether the client owes a completion of the job after `step`. */
  function OwesAfter(s: Server, step: Step, id: string, owes: bool): bool {
    match step
    case Send(other, connected) =>
      owes || (other == id && connected && id in s.jobs && s.jobs[id].state == JobState.Queued)
    case Complete(c) => owes && c.jobId != id
    case _ => owes
  }

  /** A status message that leaves the job on its way: while a completion is
      owed, any that does not finish it; during a backoff, any that leaves it to
      be requeued; otherwise only one that stores what is stored already. */
  predicate Harmless(s: Server, u: StatusUpdate, owes: bool)
    requires u.jobId in s.jobs
  {
    if owes then !IsFinished(StoredState(u))
    else if Waiting(s, u.jobId) > 0 then Requeueable(StoredState(u))
    else StoredState(u) == s.jobs[u.jobId].state
  }

  /** `step` fits a job that fails at every attempt, with one completion per
      send and no other writer: it is streamed only while none is owed, every
      completion of it is a plain failure that is owed, its status messages
      are harmless, and no reaper or push touches it. */
  predicate Fits(s: Server, step: Step, id: string, owes: bool) {
    match step
    case Push(other, _) => other != id
    case Status(u) => u.jobId == id ==> id in s.jobs && Harmless(s, u, owes)
    case Complete(c) => c.jobId == id ==> owes && PlainFailure(c)
    case Backoff(_) => true
    case FindStale(_) => true
    case Reap(other) => other != id
    case Send(other, connected) =>
      other == id && connected && id in s.jobs && s.jobs[id].state == JobState.Queued ==> !owes
  }

  predicate AlwaysFails(cfg: Config, s: Server, steps: seq<Step>, id: string, owes: bool)
    decreases |steps|
  {
    steps == [] ||
    (Fits(s, steps[0], id, owes)
     && AlwaysFails(cfg, Next(cfg, s, steps[0]), steps[1..], id, OwesAfter(s, steps[0], id, owes)))
  }

  function Owes(cfg: Config, s: Server, steps: seq<Step>, id: string, owes: bool): bool
    decreases |steps|
  {
    if steps == [] then owes
    else Owes(cfg, Next(cfg, s, steps[0]), steps[1..], id, OwesAfter(s, steps[0], id, owes))
  }

  /** Where such a job is between two steps: an attempt runs, a backoff runs,
      it is ready to be sent, or its retries are exhausted. */
  ghost predicate OnItsWay(cfg: Config, s: Server, id: string, owes: bool) {
    && id in s.jobs
    && var state, retries := s.jobs[id].state, s.jobs[id].retryCount;
    && retries <= cfg.maxRetries
    && TimesSent(s, id) == retries + (if !owes && Waiting(s, id) == 0 && state == JobState.Queued then 0 else 1)
    && Waiting(s, id) <= (if owes || retries == cfg.maxRetries then 0 else 1)
    && (if owes then !IsFinished(state)
        else if Waiting(s, id) > 0 then Requeueable(state)
        else state == JobState.Queued || (state == JobState.Failed && retries == cfg.maxRetries))
    && |Delays(s.scheduled, id)| == retries + Waiting(s, id)
    && forall k :: 0 <= k < |Delays(s.scheduled, id)| ==> Delays(s.scheduled, id)[k] == BackoffSecs(cfg, k)
  }

  lemma DelaysOne(scheduled: seq<Retry>, r: Retry, id: string)
    ensures Delays(scheduled + [r], id) == Delays(scheduled, id) + if r.jobId == id then [r.delaySecs] else []
  {
    assert (scheduled + [r])[..|scheduled|] == scheduled;
  }

  lemma WaitingOne(waiting: seq<Retry>, r: Retry, id: string)
    ensures Count(waiting + [r], (x: Retry) => x.jobId == id)
         == Count(waiting, (x: Retry) => x.jobId == id) + if r.jobId == id then 1 else 0
  {
    assert (waiting + [r])[..|waiting|] == waiting;
  }

  lemma WaitingWithout(waiting: seq<Retry>, k: nat, id: string)
    requires k < |waiting|
    ensures Count(waiting[..k] + waiting[k + 1..], (x: Retry) => x.jobId == id)
         == Count(waiting, (x: Retry) => x.jobId == id) - if waiting[k].jobId == id then 1 else 0
  {
    var p := (x: Retry) => x.jobId == id;
    CountAppend(waiting[..k], waiting[k + 1..], p);
    CountAppend(waiting[..k + 1], waiting[k + 1..], p);
    assert waiting[..k + 1] + waiting[k + 1..] == waiting;
    assert waiting[..k + 1][..k] == waiting[..k];
  }

  lemma ItFails(cfg: Config, s: Server, c: Completion)
    requires OnItsWay(cfg, s, c.jobId, true) && PlainFailure(c)
    ensures OnItsWay(cfg, Next(cfg, s, Complete(c)), c.jobId, false)
  {
    hide BackoffSecs, Count;
    var id := c.jobId;
    var retry := Retry(id, BackoffSecs(cfg, s.jobs[id].retryCount));
    DelaysOne(s.scheduled, retry, id);
    WaitingOne(s.waiting, retry, id);
    var next := Next(cfg, s, Complete(c));
    assert next.sent == s.sent;
  }

  lemma ItsBackoffElapses(cfg: Config, s: Server, k: nat, id: string, owes: bool)
    requires OnItsWay(cfg, s, id, owes)
    ensures OnItsWay(cfg, Next(cfg, s, Backoff(k)), id, owes)
  {
    hide BackoffSecs, Count, Delays;
    var next := Next(cfg, s, Backoff(k));
    assert next.sent == s.sent && next.scheduled == s.scheduled;
    if k < |s.waiting| {
      WaitingWithout(s.waiting, k, id);
      assert next.waiting == s.waiting[..k] + s.waiting[k + 1..];
    }
  }

  lemma AnotherJobFails(cfg: Config, s: Server, c: Completion, id: string, owes: bool)
    requires OnItsWay(cfg, s, id, owes) && c.jobId != id
    ensures OnItsWay(cfg, Next(cfg, s, Complete(c)), id, owes)
  {
    hide BackoffSecs, Count, Delays;
    var next := Next(cfg, s, Complete(c));
    assert next.sent == s.sent && id in next.jobs && next.jobs[id] == s.jobs[id];
    if next.waiting != s.waiting {
      var retry := Retry(c.jobId, BackoffSecs(cfg, s.jobs[c.jobId].retryCount));
      assert next.waiting == s.waiting + [retry] && next.scheduled == s.scheduled + [retry];
      DelaysOne(s.scheduled, retry, id);
      WaitingOne(s.waiting, retry, id);
    }
  }

  /** Exactly the harmless status messages leave such a job on its way. */
  lemma StatusKeepsItsWayIff(cfg: Config, s: Server, u: StatusUpdate, owes: bool)
    requires OnItsWay(cfg, s, u.jobId, owes)
    ensures OnItsWay(cfg, Next(cfg, s, Status(u)), u.jobId, owes) <==> Harmless(s, u, owes)
  {
    hide BackoffSecs, Count, Delays, StoredState;
    var next := Next(cfg, s, Status(u));
    assert next.sent == s.sent && next.waiting == s.waiting && next.scheduled == s.scheduled;
  }

  lemma OneStep(cfg: Config, s: Server, step: Step, id: string, owes: bool)
    requires OnItsWay(cfg, s, id, owes) && Fits(s, step, id, owes)
    ensures OnItsWay(cfg, Next(cfg, s, step), id, OwesAfter(s, step, id, owes))
  {
    hide BackoffSecs, Count, Delays, ProtoStateToCore;
    match step
    case Send(other, connected) =>
      SentOne(s, id, other, connected);
    case Complete(c) =>
      if c.jobId == id { ItFails(cfg, s, c); } else { AnotherJobFails(cfg, s, c, id, owes); }
    case Backoff(k) => ItsBackoffElapses(cfg, s, k, id, owes);
    case Push(_, _) =>
    case Status(u) =>
      if u.jobId == id { StatusKeepsItsWayIff(cfg, s, u, owes); }
    case FindStale(_) =>
    case Reap(_) =>
  }

  lemma {:induction false} EveryStep(cfg: Config, s: Server, steps: seq<Step>, id: string, owes: bool)
    requires OnItsWay(cfg, s, id, owes) && AlwaysFails(cfg, s, steps, id, owes)
    ensures OnItsWay(cfg, Run(cfg, s, steps), id, Owes(cfg, s, steps, id, owes))
    decreases |steps|
  {
    hide OnItsWay, Next, Fits, OwesAfter;
    if steps != [] {
      OneStep(cfg, s, steps[0], id, owes);
      EveryStep(cfg, Next(cfg, s, steps[0]), steps[1..], id, OwesAfter(s, steps[0], id, owes));
    }
  }

  lemma NothingWaits(s: Server, id: string)
    ensures Waiting(s, id) == 0 <==> NoRetryWaiting(s, id)
  {
  }

  /** What a harmful message does to a requeued job: any that arrives late, from
      the attempt before, and stores another state than queued - a late `failed`
      above all - leaves it with no retry waiting, and it is never sent again,
      however many retries it had left. */
  lemma LateMessageStrandsTheJob(cfg: Config, s: Server, u: StatusUpdate, after: seq<Step>)
    requires OnItsWay(cfg, s, u.jobId, false) && s.jobs[u.jobId].state == JobState.Queued && Waiting(s, u.jobId) == 0
    requires StoredState(u) != JobState.Queued
    requires AllQuiet(after, u.jobId) && NeverQueuedAgain(after, u.jobId)
    ensures var told := Next(cfg, s, Status(u));
      && !OnItsWay(cfg, told, u.jobId, false)
      && TimesSent(Run(cfg, told, after), u.jobId) == s.jobs[u.jobId].retryCount
  {
    hide BackoffSecs, Count, Delays, StoredState, Run, AllQuiet, NeverQueuedAgain;
    StatusKeepsItsWayIff(cfg, s, u, false);
    NothingWaits(s, u.jobId);
    var told := Next(cfg, s, Status(u));
    assert told.waiting == s.waiting && told.sent == s.sent;
    NotQueuedIsNotSent(cfg, told, after, u.jobId);
  }

  /** Nothing can happen to the job any more: it is not queued, no completion
      is owed, no backoff is running. */
  ghost predicate Settled(s: Server, id: string, owes: bool) {
    id in s.jobs && s.jobs[id].state != JobState.Queued && !owes && Waiting(s, id) == 0
  }

  /** The backoff doubles up to its seventh value and then stays, as far as 64
      bits go. */
  predicate IsSchedule(base: nat, delays: seq<nat>) {
    && (delays != [] ==> delays[0] == base)
    && forall k :: 0 <= k < |delays| - 1 ==> NextDelay(delays, k)
  }

  predicate NextDelay(delays: seq<nat>, k: nat)
    requires k + 1 < |delays|
  {
    delays[k + 1] == if k < 6 then Doubled(delays[k]) else delays[k]
  }

  /** Twice as long, or the largest 64-bit number. */
  function Doubled(delay: nat): nat {
    if 2 * delay < 0x1_0000_0000_0000_0000 then 2 * delay else 0xFFFF_FFFF_FFFF_FFFF
  }

  /** The first delay is the configured one; each of the next six is twice the
      one before it, or the largest 64-bit number; the rest are the same. */
  lemma BackoffDoubles(cfg: Config, k: nat)
    requires cfg.retryDelaySecs < 0x1_0000_0000_0000_0000
    ensures BackoffSecs(cfg, 0) == cfg.retryDelaySecs
    ensures k < 6 ==> BackoffSecs(cfg, k + 1) == Doubled(BackoffSecs(cfg, k))
    ensures k >= 6 ==> BackoffSecs(cfg, k + 1) == BackoffSecs(cfg, k)
  {
    var base := cfg.retryDelaySecs;
    assert Power2(0) == 1;
    if k < 6 {
      Twice(base, Power2(k));
      assert Power2(k + 1) == 2 * Power2(k);
    }
  }

  lemma Twice(a: nat, b: nat)
    ensures a * (2 * b) == 2 * (a * b)
  {
  }

  lemma ScheduleOf(cfg: Config, delays: seq<nat>)
    requires cfg.retryDelaySecs < 0x1_0000_0000_0000_0000
    requires forall k :: 0 <= k < |delays| ==> delays[k] == BackoffSecs(cfg, k)
    ensures IsSchedule(cfg.retryDelaySecs, delays)
  {
    hide BackoffSecs;
    BackoffDoubles(cfg, 0);
    forall k | 0 <= k < |delays| - 1 ensures NextDelay(delays, k) {
      BackoffDoubles(cfg, k);
    }
  }

  /** A new job that fails at every attempt is sent at most max_retries + 1
      times; once it is settled it was sent exactly that often and is Failed
      with retry_count = max_retries, after max_retries backoffs that double
      from the configured delay. */
  lemma RetriesAreBounded(cfg: Config, s: Server, id: string, target: Option<string>, steps: seq<Step>)
    requires id !in s.jobs && TimesSent(s, id) == 0 && Waiting(s, id) == 0 && Delays(s.scheduled, id) == []
    requires AlwaysFails(cfg, AfterPush(s, id, target), steps, id, false)
    ensures var end := Run(cfg, AfterPush(s, id, target), steps);
      && TimesSent(end, id) <= cfg.maxRetries + 1
      && (Settled(end, id, Owes(cfg, AfterPush(s, id, target), steps, id, false)) ==>
            && TimesSent(end, id) == cfg.maxRetries + 1
            && end.jobs[id].state == JobState.Failed
            && end.jobs[id].retryCount == cfg.maxRetries
            && |Delays(end.scheduled, id)| == cfg.maxRetries)
      && (forall k :: 0 <= k < |Delays(end.scheduled, id)| ==> Delays(end.scheduled, id)[k] == BackoffSecs(cfg, k))
      && (cfg.retryDelaySecs < 0x1_0000_0000_0000_0000 ==> IsSchedule(cfg.retryDelaySecs, Delays(end.scheduled, id)))
  {
    hide BackoffSecs, Count, Delays, AlwaysFails, Run, IsSchedule;
    assert OnItsWay(cfg, AfterPush(s, id, target), id, false);
    EveryStep(cfg, AfterPush(s, id, target), steps, id, false);
    var end := Run(cfg, AfterPush(s, id, target), steps);
    if cfg.retryDelaySecs < 0x1_0000_0000_0000_0000 {
      ScheduleOf(cfg, Delays(end.scheduled, id));
    }
  }

  lemma {:induction false} Power2Grows(m: nat, n: nat)
    requires m <= n
    ensures Power2(m) <= Power2(n)
  {
    if m < n {
      Power2Grows(m, n - 1);
    }
  }

  /** The delays never decrease, never exceed 64 times the base delay, and
      saturate instead of overflowing 64 bits. */
  lemma DelaysGrowToACap(cfg: Config, m: nat, n: nat)
    requires m <= n && cfg.retryDelaySecs < U64
    ensures cfg.retryDelaySecs <= BackoffSecs(cfg, m) <= BackoffSecs(cfg, n) <= 64 * cfg.retryDelaySecs
    ensures BackoffSecs(cfg, n) < U64
    ensures n >= 6 && 64 * cfg.retryDelaySecs < U64 ==> BackoffSecs(cfg, n) == 64 * cfg.retryDelaySecs
  {
    var i, j := if m < 6 then m else 6, if n < 6 then n else 6;
    Power2Grows(i, j);
    Power2Grows(j, 6);
    assert Power2(6) == 64 by {
      assert Power2(4) == 16;
      assert Power2(5) == 32;
    }
    MulGrows(cfg.retryDelaySecs, 1, Power2(i));
    MulGrows(cfg.retryDelaySecs, Power2(i), Power2(j));
    MulGrows(cfg.retryDelaySecs, Power2(j), 64);
  }

  lemma MulGrows(a: nat, x: nat, y: nat)
    requires x <= y
    ensures a * x <= a * y
  {
  }
}
