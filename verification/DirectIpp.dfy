/** The direct_ipp backend: one IPP Print-Job per page, each polled until the
    printer gives its final job-state. Everything outside the program - the
    printer's bytes, the clock, the outer timeout's cancel, set-up failures -
    is an arbitrary environment. */
module DirectIpp {
  import opened Common
  import opened IppCodec
  import opened PrintEvents
  import opened PrintBackend

  /** The pause between two polls. */
  const POLL_SLEEP_MS: nat := 2000

  /** One round of the poll loop: whether the cancel is seen, what the printer
      answers (`None`: the request fails), and the time after the answer. */
  datatype Tick = Tick(cancelled: bool, answer: Option<seq<byte>>, now: nat)

  /** What happens while one page is sent: a cancel seen before it, the page
      file and the two HTTP clients, the answer to the Print-Job, and the poll
      rounds from `pollStart` on. */
  datatype PageEnv = PageEnv(
    cancelledBefore: bool,
    pageFile: Option<seq<byte>>,
    sendClientBuilt: bool,
    answer: Option<seq<byte>>,
    pollClientBuilt: bool,
    pollStart: nat,
    ticks: nat -> Tick)

  /** Time goes on: every poll round is at least two seconds after the last. */
  ghost predicate Clock(env: PageEnv) {
    && env.pollStart <= env.ticks(0).now
    && forall i: nat :: Pauses(env, i)
  }

  predicate Pauses(env: PageEnv, i: nat) {
    env.ticks(i).now + 2000 <= env.ticks(i + 1).now
  }

  datatype PollEnd = Printed | GaveUp(state: int) | Lost(why: LostBecause)

  /** The job-state read in a round (0 when the answer has none). */
  function StateRead(tick: Tick): int {
    if tick.answer.Some? && Parsed(tick.answer.value).Ok?
    then Parsed(tick.answer.value).value.IntegerOr0(Ascii("job-state"))
    else 0
  }

  /** How a round ends the poll, `None` when it goes on. */
  function TickEnd(tick: Tick, lastState: int, deadline: nat): Option<PollEnd> {
    if tick.cancelled then Some(Lost(CancelledWhilePolling(lastState)))
    else if tick.answer.None? then Some(Lost(PollFailed))
    else match Parsed(tick.answer.value)
      case Err(_) => Some(Lost(PollUnreadable))
      case Ok(response) =>
        if response.statusCode == CLIENT_ERROR_NOT_FOUND then Some(Lost(PrinterForgotJob)) else
        var state := StateRead(tick);
        if state == 9 then Some(Printed)
        else if state == 7 || state == 8 then Some(GaveUp(state))
        else if tick.now > deadline then Some(Lost(NoFinalState(state)))
        else None
  }

  function StateBefore(env: PageEnv, k: nat, acceptedState: int): int {
    if k == 0 then acceptedState else StateRead(env.ticks(k - 1))
  }

  function EndOf(env: PageEnv, k: nat, acceptedState: int, timeout: nat): Option<PollEnd> {
    TickEnd(env.ticks(k), StateBefore(env, k, acceptedState), env.pollStart + timeout)
  }

  /** The poll ends in round `k`: no round before it ended it. */
  ghost predicate EndsIn(env: PageEnv, k: nat, acceptedState: int, timeout: nat) {
    && EndOf(env, k, acceptedState, timeout).Some?
    && forall j: nat :: j < k ==> EndOf(env, j, acceptedState, timeout).None?
  }

  lemma {:induction false} TimeOfRound(env: PageEnv, k: nat)
    requires Clock(env)
    ensures env.pollStart + POLL_SLEEP_MS * k <= env.ticks(k).now
  {
    if k > 0 {
      TimeOfRound(env, k - 1);
      assert Pauses(env, k - 1);
    }
  }

  /** A round past the deadline always ends the poll. */
  lemma EndsByDeadline(env: PageEnv, k: nat, acceptedState: int, timeout: nat)
    requires Clock(env) && k > timeout / POLL_SLEEP_MS
    ensures EndOf(env, k, acceptedState, timeout).Some?
  {
    TimeOfRound(env, k);
  }

  /** The round in which the poll, not ended before round `k`, ends. */
  ghost function LastRound(env: PageEnv, k: nat, acceptedState: int, timeout: nat): (n: nat)
    requires Clock(env) && k <= timeout / POLL_SLEEP_MS + 1
    requires forall j: nat :: j < k ==> EndOf(env, j, acceptedState, timeout).None?
    ensures EndsIn(env, n, acceptedState, timeout) && n <= timeout / POLL_SLEEP_MS + 1
    decreases timeout / POLL_SLEEP_MS + 1 - k
  {
    if EndOf(env, k, acceptedState, timeout).Some? then k
    else
      assert k <= timeout / POLL_SLEEP_MS by {
        if k > timeout / POLL_SLEEP_MS { EndsByDeadline(env, k, acceptedState, timeout); }
      }
      LastRound(env, k + 1, acceptedState, timeout)
  }

  ghost function PollEndOf(env: PageEnv, acceptedState: int, timeout: nat): PollEnd
    requires Clock(env)
  {
    EndOf(env, LastRound(env, 0, acceptedState, timeout), acceptedState, timeout).value
  }

  /** The poll always ends, in exactly one round, after at most
      timeout / 2 s + 2 requests. */
  lemma PollIsBounded(env: PageEnv, acceptedState: int, timeout: nat)
    requires Clock(env)
    ensures exists k: nat :: EndsIn(env, k, acceptedState, timeout) && k + 1 <= timeout / 2000 + 2
    ensures forall j: nat, k: nat :: EndsIn(env, j, acceptedState, timeout) && EndsIn(env, k, acceptedState, timeout) ==> j == k
  {
    hide TickEnd;
    var k := LastRound(env, 0, acceptedState, timeout);
    assert EndsIn(env, k, acceptedState, timeout);
  }

  // ---- Events of one page -----------------------------------------------------

  /** A failure event is the job's only on its first page. */
  function FailureEvents(page: PageOfJob, event: PrintJobEvent): seq<PrintJobEvent> {
    if page.FailureIsTheJobs() then [event] else []
  }

  function UnconfirmedEvent(jobId: string, outcome: Outcome): PrintJobEvent {
    PrintJobEvent(jobId, PrintStage.Unconfirmed, false, IPP_JOB_STATE, UnknownEnd(outcome))
  }

  function PollEvents(page: PageOfJob, jobId: string, printerJobId: nat, end: PollEnd): seq<PrintJobEvent> {
    match end
    case Printed => [VerifiedEvent(jobId, IPP_JOB_STATE, FinalState(9, printerJobId)), OkEvent(jobId, page.PrintedStage())]
    case GaveUp(state) =>
      FailureEvents(page, PrintJobEvent(jobId, PrintStage.Failed, false, IPP_JOB_STATE, FinalState(state, printerJobId)))
    case Lost(why) => FailureEvents(page, UnconfirmedEvent(jobId, AfterAcceptance(printerJobId, why)))
  }

  function PollResult(printerJobId: nat, end: PollEnd): PrintResult {
    match end
    case Printed => Ok(())
    case GaveUp(state) => Err(Plain(PrinterGaveUp(state, printerJobId)))
    case Lost(why) => Err(UnconfirmedOutcome(AfterAcceptance(printerJobId, why)))
  }

  /** Whether the Print-Job went out. */
  predicate IsPosted(env: PageEnv) {
    !env.cancelledBefore && env.pageFile.Some? && env.sendClientBuilt
  }

  /** The printer's success answer to the Print-Job was read. */
  predicate PageAccepted(env: PageEnv) {
    IsPosted(env) && env.answer.Some? && Parsed(env.answer.value).Ok? && Parsed(env.answer.value).value.IsSuccess()
  }

  function PrinterJobId(env: PageEnv): nat
    requires PageAccepted(env)
  {
    ToU32(Parsed(env.answer.value).value.IntegerOr0(Ascii("job-id")))
  }

  function AcceptedState(env: PageEnv): int
    requires PageAccepted(env)
  {
    Parsed(env.answer.value).value.IntegerOr0(Ascii("job-state"))
  }

  /** Why the printer did not accept a page that was posted. */
  function Refusal(env: PageEnv): Cause
    requires IsPosted(env) && !PageAccepted(env)
  {
    match env.answer
    case None => SendFailed
    case Some(bytes) =>
      match Parsed(bytes)
      case Err(_) => ResponseUnreadable
      case Ok(response) => IppErrorStatus(response.statusCode)
  }

  datatype Attempt = Attempt(result: PrintResult, events: seq<PrintJobEvent>)

  /** One page's Print-Job, once it is not cancelled beforehand. */
  ghost function SendJob(env: PageEnv, page: PageOfJob, jobId: string, timeout: nat): Attempt
    requires Clock(env) && !env.cancelledBefore
  {
    var sending := [OkEvent(jobId, PrintStage.Sending)];
    if env.pageFile.None? then Attempt(Err(Plain(PageUnreadable)), [])
    else if !env.sendClientBuilt then Attempt(Err(Plain(ClientNotBuilt)), sending)
    else if !PageAccepted(env) then
      Attempt(Err(Plain(Refusal(env))), sending + FailureEvents(page, FailEvent(jobId, PrintStage.Failed)))
    else
      var acknowledged := sending + [OkEvent(jobId, PrintStage.Acknowledged)];
      if !env.pollClientBuilt then Attempt(Err(Plain(ClientNotBuilt)), acknowledged)
      else
        var end := PollEndOf(env, AcceptedState(env), timeout);
        Attempt(PollResult(PrinterJobId(env), end), acknowledged + PollEvents(page, jobId, PrinterJobId(env), end))
  }

  /** A job's pages: `env(p)` is what happens to page `p`. */
  ghost predicate Clocks(envs: nat -> PageEnv) {
    forall p: nat :: Clock(envs(p))
  }

  /** Page `p`, the cancel check before it included; a failure of a later page
      becomes the job's one `unconfirmed`. */
  ghost function SendPage(envs: nat -> PageEnv, p: nat, pages: nat, jobId: string, timeout: nat): Attempt
    requires Clocks(envs)
  {
    var page := PageOfJob(p, pages);
    var sent :=
      if !envs(p).cancelledBefore then SendJob(envs(p), page, jobId, timeout)
      else if page.FailureIsTheJobs()
      then Attempt(Err(Plain(CancelledBeforeFirstPage)), [FailEvent(jobId, PrintStage.Failed)])
      else Attempt(Err(Plain(CancelledBetweenPages)), []);
    if sent.result.Ok? || page.FailureIsTheJobs() then sent
    else
      var outcome := AfterAcceptedPages(p, pages, sent.result.error);
      Attempt(Err(UnconfirmedOutcome(outcome)), sent.events + [UnconfirmedEvent(jobId, outcome)])
  }

  /** Pages `p..pages`, stopping at the first failure. */
  ghost function SendFrom(envs: nat -> PageEnv, p: nat, pages: nat, jobId: string, timeout: nat): Attempt
    requires Clocks(envs) && p <= pages
    decreases pages - p
  {
    if p == pages then Attempt(Ok(()), [])
    else
      var sent := SendPage(envs, p, pages, jobId, timeout);
      if sent.result.Err? then sent
      else
        var rest := SendFrom(envs, p + 1, pages, jobId, timeout);
        Attempt(rest.result, sent.events + rest.events)
  }

  // ---- What is posted to the printer --------------------------------------------

  /** What the requests of a job say: the printer's URI, the document format, and
      the job's name and copies. */
  datatype JobInfo = JobInfo(printerUri: seq<byte>, format: seq<byte>, name: seq<byte>, copies: nat)

  /** The first `n` poll requests, numbered from 101. */
  function PollRequests(printerUri: seq<byte>, printerJobId: nat, n: nat): (requests: seq<seq<byte>>)
    requires printerJobId < U32
    ensures |requests| == n
  {
    seq(n, i requires 0 <= i < n =>
          Message(GET_JOB_ATTRIBUTES, 101 + i, GetJobAttributesItems(printerUri, ToI32(printerJobId))))
  }

  lemma NoPollRequests(printerUri: seq<byte>, printerJobId: nat)
    requires printerJobId < U32
    ensures PollRequests(printerUri, printerJobId, 0) == []
  {
  }

  lemma OnePollRequest(printerUri: seq<byte>, printerJobId: nat, k: nat)
    requires printerJobId < U32
    ensures PollRequests(printerUri, printerJobId, k + 1)
         == PollRequests(printerUri, printerJobId, k)
            + [Message(GET_JOB_ATTRIBUTES, 101 + k, GetJobAttributesItems(printerUri, ToI32(printerJobId)))]
  {
    hide Message, GetJobAttributesItems;
  }

  /** How many polls are sent: one a round, none in a round that sees the
      cancel. */
  ghost function PollsSent(env: PageEnv, acceptedState: int, timeout: nat): nat
    requires Clock(env)
  {
    var last := LastRound(env, 0, acceptedState, timeout);
    if env.ticks(last).cancelled then last else last + 1
  }

  /** The Print-Job of a page: its request, and the page's bytes behind it. */
  function PrintJobPost(job: JobInfo, page: seq<byte>): seq<byte> {
    Message(PRINT_JOB, 1, PrintJobItems(job.printerUri, job.format, job.name, job.copies)) + page
  }

  /** What one page posts: its Print-Job, then its polls. */
  ghost function PagePosts(env: PageEnv, job: JobInfo, timeout: nat): seq<seq<byte>>
    requires Clock(env)
  {
    if env.pageFile.None? || !env.sendClientBuilt then []
    else if env.cancelledBefore || !PageAccepted(env) || !env.pollClientBuilt then [PrintJobPost(job, env.pageFile.value)]
    else
      [PrintJobPost(job, env.pageFile.value)]
      + PollRequests(job.printerUri, PrinterJobId(env), PollsSent(env, AcceptedState(env), timeout))
  }

  /** What the pages from `p` on post, up to the first that fails. */
  ghost function PostsFrom(envs: nat -> PageEnv, p: nat, pages: nat, jobId: string, job: JobInfo, timeout: nat): seq<seq<byte>>
    requires Clocks(envs) && p <= pages
    decreases pages - p
  {
    if p == pages then []
    else
      (if envs(p).cancelledBefore then [] else PagePosts(envs(p), job, timeout))
      + if SendPage(envs, p, pages, jobId, timeout).result.Ok? then PostsFrom(envs, p + 1, pages, jobId, job, timeout) else []
  }

  lemma FirstPost(envs: nat -> PageEnv, p: nat, pages: nat, jobId: string, job: JobInfo, timeout: nat)
    requires Clocks(envs) && p < pages
    ensures (var sent := SendPage(envs, p, pages, jobId, timeout);
             var posts := if envs(p).cancelledBefore then [] else PagePosts(envs(p), job, timeout);
             var whole := SendFrom(envs, p, pages, jobId, timeout);
             && (sent.result.Err? ==> whole == sent && PostsFrom(envs, p, pages, jobId, job, timeout) == posts)
             && (sent.result.Ok? ==>
                   && whole.result == SendFrom(envs, p + 1, pages, jobId, timeout).result
                   && whole.events == sent.events + SendFrom(envs, p + 1, pages, jobId, timeout).events
                   && PostsFrom(envs, p, pages, jobId, job, timeout) == posts + PostsFrom(envs, p + 1, pages, jobId, job, timeout)))
  {
    hide SendPage, PagePosts;
    var posts := if envs(p).cancelledBefore then [] else PagePosts(envs(p), job, timeout);
    assert posts + [] == posts;
  }

  lemma NoPages(envs: nat -> PageEnv, pages: nat, jobId: string, job: JobInfo, timeout: nat)
    requires Clocks(envs)
    ensures SendFrom(envs, pages, pages, jobId, timeout) == Attempt(Ok(()), [])
    ensures PostsFrom(envs, pages, pages, jobId, job, timeout) == []
  {
  }

  class Backend {
    const pollTimeoutMs: nat

    constructor (pollTimeoutMs: nat)
      ensures this.pollTimeoutMs == pollTimeoutMs
    {
      this.pollTimeoutMs := pollTimeoutMs;
    }

    /** `PageEvents::failure`. */
    method Failure(page: PageOfJob, event: PrintJobEvent, events: EventEmitter)
      requires events.Valid()
      modifies events
      ensures events.Valid() && events.emitted == old(events.emitted) + FailureEvents(page, event)
    {
      if page.FailureIsTheJobs() {
        events.Emit(event);
      }
    }

    /** Polls the accepted job; `posted` are the requests it sends. */
    method PollJobCompletion(env: PageEnv, printerUri: seq<byte>, printerJobId: nat, acceptedState: int, jobId: string,
                             page: PageOfJob, events: EventEmitter)
      returns (r: PrintResult, posted: seq<seq<byte>>)
      requires Clock(env) && printerJobId < U32 && events.Valid()
      modifies events
      ensures events.Valid()
      ensures r == PollResult(printerJobId, PollEndOf(env, acceptedState, pollTimeoutMs))
      ensures events.emitted == old(events.emitted)
                              + PollEvents(page, jobId, printerJobId, PollEndOf(env, acceptedState, pollTimeoutMs))
      ensures posted == PollRequests(printerUri, printerJobId, PollsSent(env, acceptedState, pollTimeoutMs))
      ensures |posted| <= pollTimeoutMs / 2000 + 2
    {
      hide Parsed, Ascii, Message, GetJobAttributesItems, PollRequests, Clock, LastRound, Response.IntegerOr0, FailureEvents;
      var deadline := env.pollStart + pollTimeoutMs;
      var requestId := 100;
      posted := [];
      NoPollRequests(printerUri, printerJobId);
      var lastState := acceptedState;
      ghost var k: nat := 0;
      ghost var last := LastRound(env, 0, acceptedState, pollTimeoutMs);
      while true
        invariant requestId == 100 + k && k <= last
        invariant posted == PollRequests(printerUri, printerJobId, k)
        invariant lastState == StateBefore(env, k, acceptedState)
        invariant events.Valid() && events.emitted == old(events.emitted)
        decreases last - k
      {
        var tick := env.ticks(requestId - 100);
        ghost var end := EndOf(env, k, acceptedState, pollTimeoutMs);
        assert end.Some? ==> k == last;
        if tick.cancelled {
          r := Lose(page, jobId, printerJobId, CancelledWhilePolling(lastState), events);
          return;
        }
        requestId := requestId + 1;
        var request := BuildGetJobAttributesRequest(printerUri, ToI32(printerJobId), requestId);
        posted := posted + [request];
        OnePollRequest(printerUri, printerJobId, k);
        if tick.answer.None? {
          r := Lose(page, jobId, printerJobId, PollFailed, events);
          return;
        }
        var parsed := ParseResponse(tick.answer.value);
        if parsed.Err? {
          r := Lose(page, jobId, printerJobId, PollUnreadable, events);
          return;
        }
        if parsed.value.statusCode == CLIENT_ERROR_NOT_FOUND {
          r := Lose(page, jobId, printerJobId, PrinterForgotJob, events);
          return;
        }
        var jobState := parsed.value.IntegerOr0(Ascii("job-state"));
        lastState := jobState;
        match jobState {
          case 9 =>
            events.Emit(VerifiedEvent(jobId, IPP_JOB_STATE, FinalState(9, printerJobId)));
            events.Emit(OkEvent(jobId, page.PrintedStage()));
            return Ok(()), posted;
          case _ =>
            if jobState == 7 || jobState == 8 {
              Failure(page, PrintJobEvent(jobId, PrintStage.Failed, false, IPP_JOB_STATE,
                                          FinalState(jobState, printerJobId)), events);
              return Err(Plain(PrinterGaveUp(jobState, printerJobId))), posted;
            }
            if tick.now > deadline {
              r := Lose(page, jobId, printerJobId, NoFinalState(jobState), events);
              return;
            }
        }
        k := k + 1;
      }
    }

    /** One `unconfirmed` event and the error that carries it. */
    method Lose(page: PageOfJob, jobId: string, printerJobId: nat, why: LostBecause, events: EventEmitter)
      returns (r: PrintResult)
      requires events.Valid()
      modifies events
      ensures events.Valid() && r == PollResult(printerJobId, Lost(why))
      ensures events.emitted == old(events.emitted) + PollEvents(page, jobId, printerJobId, Lost(why))
    {
      var outcome := AfterAcceptance(printerJobId, why);
      Failure(page, UnconfirmedEvent(jobId, outcome), events);
      return Err(UnconfirmedOutcome(outcome));
    }

    method SendIppJob(env: PageEnv, job: JobInfo, jobId: string, page: PageOfJob, events: EventEmitter)
      returns (r: PrintResult, posted: seq<seq<byte>>)
      requires Clock(env) && !env.cancelledBefore && events.Valid()
      modifies events
      ensures events.Valid() && r == SendJob(env, page, jobId, pollTimeoutMs).result
      ensures events.emitted == old(events.emitted) + SendJob(env, page, jobId, pollTimeoutMs).events
      ensures posted == PagePosts(env, job, pollTimeoutMs)
    {
      hide Parsed, Ascii, ToU32, Clock, PollEndOf, PollResult, PollEvents, FailureEvents, Response.IntegerOr0, Response.IsSuccess;
      hide PollRequests, PollsSent, Message, PrintJobItems;
      ghost var before, sending := old(events.emitted), [OkEvent(jobId, PrintStage.Sending)];
      ghost var acknowledged := [OkEvent(jobId, PrintStage.Acknowledged)];
      Associative(before, sending, FailureEvents(page, FailEvent(jobId, PrintStage.Failed)));
      Associative(before, sending, acknowledged);
      posted := [];
      if env.pageFile.None? {
        return Err(Plain(PageUnreadable)), posted;
      }
      events.Emit(OkEvent(jobId, PrintStage.Sending));
      var body := BuildPrintJobRequest(job.printerUri, job.format, job.name, 1, job.copies);
      body := body + env.pageFile.value;
      if !env.sendClientBuilt {
        return Err(Plain(ClientNotBuilt)), posted;
      }
      posted := [body];
      if env.answer.None? {
        Failure(page, FailEvent(jobId, PrintStage.Failed), events);
        return Err(Plain(SendFailed)), posted;
      }
      var parsed := ParseResponse(env.answer.value);
      if parsed.Err? {
        Failure(page, FailEvent(jobId, PrintStage.Failed), events);
        return Err(Plain(ResponseUnreadable)), posted;
      }
      if !parsed.value.IsSuccess() {
        Failure(page, FailEvent(jobId, PrintStage.Failed), events);
        return Err(Plain(IppErrorStatus(parsed.value.statusCode))), posted;
      }
      var printerJobId := ToU32(parsed.value.IntegerOr0(Ascii("job-id")));
      var jobState := parsed.value.IntegerOr0(Ascii("job-state"));
      events.Emit(OkEvent(jobId, PrintStage.Acknowledged));
      if !env.pollClientBuilt {
        return Err(Plain(ClientNotBuilt)), posted;
      }
      var polls;
      r, polls := PollJobCompletion(env, job.printerUri, printerJobId, jobState, jobId, page, events);
      posted := posted + polls;
      Associative(before, sending + acknowledged, PollEvents(page, jobId, printerJobId, PollEndOf(env, jobState, pollTimeoutMs)));
    }

    /** The loop body of `SendPages`: page `i`, its cancel check first. */
    method SendPageOfJob(envs: nat -> PageEnv, i: nat, pages: nat, job: JobInfo, jobId: string, events: EventEmitter)
      returns (r: PrintResult, posted: seq<seq<byte>>)
      requires Clocks(envs) && events.Valid()
      modifies events
      ensures events.Valid() && r == SendPage(envs, i, pages, jobId, pollTimeoutMs).result
      ensures events.emitted == old(events.emitted) + SendPage(envs, i, pages, jobId, pollTimeoutMs).events
      ensures posted == if envs(i).cancelledBefore then [] else PagePosts(envs(i), job, pollTimeoutMs)
    {
      hide SendJob, PagePosts;
      var page := PageOfJob(i, pages);
      r, posted := Ok(()), [];
      if page.FailureIsTheJobs() {
        r := BailIfCancelled(envs(i).cancelledBefore, jobId, events);
      } else if envs(i).cancelledBefore {
        r := Err(Plain(CancelledBetweenPages));
      }
      if r.Ok? {
        r, posted := SendIppJob(envs(i), job, jobId, page, events);
      }
      if r.Err? && !page.FailureIsTheJobs() {
        var outcome := AfterAcceptedPages(i, pages, r.error);
        events.Emit(UnconfirmedEvent(jobId, outcome));
        r := Err(UnconfirmedOutcome(outcome));
      }
    }

    /** Sends every page in order, stopping at the first failure; `posted` is
        everything the printer is sent. */
    method SendPages(envs: nat -> PageEnv, pages: nat, job: JobInfo, jobId: string, events: EventEmitter)
      returns (r: PrintResult, posted: seq<seq<byte>>)
      requires Clocks(envs) && events.Valid()
      modifies events
      ensures events.Valid() && r == SendFrom(envs, 0, pages, jobId, pollTimeoutMs).result
      ensures events.emitted == old(events.emitted) + SendFrom(envs, 0, pages, jobId, pollTimeoutMs).events
      ensures posted == PostsFrom(envs, 0, pages, jobId, job, pollTimeoutMs)
    {
      hide SendPage, PagePosts, SendFrom, PostsFrom;
      ghost var whole := SendFrom(envs, 0, pages, jobId, pollTimeoutMs);
      ghost var posts := PostsFrom(envs, 0, pages, jobId, job, pollTimeoutMs);
      ghost var done: seq<PrintJobEvent> := [];
      assert done + whole.events == whole.events;
      posted := [];
      assert posted + posts == posts;
      for i := 0 to pages
        invariant events.Valid() && events.emitted == old(events.emitted) + done
        invariant whole.result == SendFrom(envs, i, pages, jobId, pollTimeoutMs).result
        invariant whole.events == done + SendFrom(envs, i, pages, jobId, pollTimeoutMs).events
        invariant posts == posted + PostsFrom(envs, i, pages, jobId, job, pollTimeoutMs)
      {
        ghost var sent := SendPage(envs, i, pages, jobId, pollTimeoutMs).events;
        var more;
        r, more := SendPageOfJob(envs, i, pages, job, jobId, events);
        Associative(old(events.emitted), done, sent);
        FirstPost(envs, i, pages, jobId, job, pollTimeoutMs);
        if r.Err? {
          posted := posted + more;
          return;
        }
        Associative(done, sent, SendFrom(envs, i + 1, pages, jobId, pollTimeoutMs).events);
        Associative(posted, more, PostsFrom(envs, i + 1, pages, jobId, job, pollTimeoutMs));
        done := done + sent;
        posted := posted + more;
      }
      NoPages(envs, pages, jobId, job, pollTimeoutMs);
      assert done + [] == done && posted + [] == posted;
      return Ok(()), posted;
    }
  }

  // ---- What a job's outcome and events say -------------------------------------

  /** The round sees no cancel and reads an answer: not that the printer does
      not know the job, but that the job's state is `state`. */
  predicate Reads(tick: Tick, state: int) {
    && !tick.cancelled && tick.answer.Some? && Parsed(tick.answer.value).Ok?
    && Parsed(tick.answer.value).value.statusCode != 0x0406
    && Parsed(tick.answer.value).value.IntegerOr0(Ascii("job-state")) == state
  }

  /** It reads a state that is not final, before the deadline. */
  ghost predicate GoesOn(tick: Tick, deadline: nat) {
    exists state: int :: Reads(tick, state) && state != 7 && state != 8 && state != 9 && tick.now <= deadline
  }

  /** Round `k` takes place: every round before it goes on. */
  ghost predicate Polls(env: PageEnv, k: nat, timeout: nat) {
    forall j: nat :: j < k ==> GoesOn(env.ticks(j), env.pollStart + timeout)
  }

  /** The printer's final state of the page, read in round `k`. */
  ghost predicate EndsWith(env: PageEnv, k: nat, state: int, timeout: nat) {
    Polls(env, k, timeout) && Reads(env.ticks(k), state)
  }

  /** The printer confirmed the page (job-state 9, completed). */
  ghost predicate PagePrinted(env: PageEnv, timeout: nat) {
    PageAccepted(env) && env.pollClientBuilt && exists k: nat :: EndsWith(env, k, 9, timeout)
  }

  /** The printer definitely gave the accepted page up (job-state 7, canceled,
      or 8, aborted). */
  ghost predicate PageGivenUp(env: PageEnv, timeout: nat) {
    && PageAccepted(env) && env.pollClientBuilt
    && exists k: nat :: EndsWith(env, k, 7, timeout) || EndsWith(env, k, 8, timeout)
  }

  /** The state a poll knows before round `k`: the last it read, or that of the
      printer's acceptance. */
  function KnownState(env: PageEnv, k: nat): int
    requires PageAccepted(env)
  {
    var answer := if k == 0 then env.answer else env.ticks(k - 1).answer;
    if answer.Some? && Parsed(answer.value).Ok? then Parsed(answer.value).value.IntegerOr0(Ascii("job-state")) else 0
  }

  /** Round `k` loses the page for this reason: the outer timeout's cancel, a
      request that fails, an answer that cannot be read, a printer that no
      longer knows the job, or a state that is still not final after the
      deadline. */
  ghost predicate LosesAt(env: PageEnv, k: nat, why: LostBecause, timeout: nat)
    requires PageAccepted(env)
  {
    && Polls(env, k, timeout)
    && var tick := env.ticks(k);
    match why
    case CancelledWhilePolling(lastState) => tick.cancelled && lastState == KnownState(env, k)
    case PollFailed => !tick.cancelled && tick.answer.None?
    case PollUnreadable => !tick.cancelled && tick.answer.Some? && Parsed(tick.answer.value).Err?
    case PrinterForgotJob =>
      && !tick.cancelled && tick.answer.Some? && Parsed(tick.answer.value).Ok?
      && Parsed(tick.answer.value).value.statusCode == 0x0406
    case NoFinalState(lastState) =>
      && Reads(tick, lastState) && lastState != 7 && lastState != 8 && lastState != 9
      && tick.now > env.pollStart + timeout
  }

  lemma GoesOnIff(tick: Tick, lastState: int, deadline: nat)
    ensures TickEnd(tick, lastState, deadline).None? <==> GoesOn(tick, deadline)
    ensures TickEnd(tick, lastState, deadline) == Some(Printed) <==> Reads(tick, 9)
    ensures forall state: int :: (TickEnd(tick, lastState, deadline) == Some(GaveUp(state))
                                  <==> Reads(tick, state) && (state == 7 || state == 8))
  {
    hide Parsed, Ascii, Response.IntegerOr0;
    var state := StateRead(tick);
    assert forall other: int :: Reads(tick, other) ==> other == state;
    assert TickEnd(tick, lastState, deadline).None? ==> Reads(tick, state);
  }

  lemma PollsIff(env: PageEnv, k: nat, acceptedState: int, timeout: nat)
    ensures Polls(env, k, timeout) <==> forall j: nat :: j < k ==> EndOf(env, j, acceptedState, timeout).None?
  {
    hide EndOf, GoesOn;
    forall j: nat ensures EndOf(env, j, acceptedState, timeout).None? <==> GoesOn(env.ticks(j), env.pollStart + timeout) {
      RoundGoesOn(env, j, acceptedState, timeout);
    }
  }

  lemma RoundGoesOn(env: PageEnv, j: nat, acceptedState: int, timeout: nat)
    ensures EndOf(env, j, acceptedState, timeout).None? <==> GoesOn(env.ticks(j), env.pollStart + timeout)
  {
    hide TickEnd, GoesOn, StateBefore;
    GoesOnIff(env.ticks(j), StateBefore(env, j, acceptedState), env.pollStart + timeout);
  }

  lemma EndIsUnique(env: PageEnv, j: nat, k: nat, acceptedState: int, timeout: nat)
    requires EndsIn(env, j, acceptedState, timeout) && EndsIn(env, k, acceptedState, timeout)
    ensures j == k
  {
  }

  lemma PollEndDecides(env: PageEnv, timeout: nat)
    requires Clock(env) && PageAccepted(env) && env.pollClientBuilt
    ensures PagePrinted(env, timeout) <==> PollEndOf(env, AcceptedState(env), timeout) == Printed
    ensures PageGivenUp(env, timeout) <==> PollEndOf(env, AcceptedState(env), timeout).GaveUp?
  {
    hide Parsed, TickEnd, Reads, GoesOn, Polls, PageAccepted, AcceptedState, Clock;
    var n := LastRound(env, 0, AcceptedState(env), timeout);
    RoundDecides(env, n, timeout);
    forall k: nat, state: int | EndsWith(env, k, state, timeout) && (state == 7 || state == 8 || state == 9) ensures k == n {
      RoundDecides(env, k, timeout);
      EndIsUnique(env, k, n, AcceptedState(env), timeout);
    }
  }

  /** What a round of the loop finds, in the printer's terms. */
  lemma RoundDecides(env: PageEnv, k: nat, timeout: nat)
    requires PageAccepted(env)
    ensures EndsWith(env, k, 9, timeout)
       <==> EndsIn(env, k, AcceptedState(env), timeout) && EndOf(env, k, AcceptedState(env), timeout) == Some(Printed)
    ensures forall state: int :: ((state == 7 || state == 8) && EndsWith(env, k, state, timeout)
              <==> EndsIn(env, k, AcceptedState(env), timeout) && EndOf(env, k, AcceptedState(env), timeout) == Some(GaveUp(state)))
  {
    hide TickEnd, Reads, Polls, PageAccepted, AcceptedState;
    GoesOnIff(env.ticks(k), StateBefore(env, k, AcceptedState(env)), env.pollStart + timeout);
    PollsIff(env, k, AcceptedState(env), timeout);
  }

  /** No event before the last of `events` decides the job: no `completed`,
      `failed` or `unconfirmed`. */
  ghost predicate Undecided(events: seq<PrintJobEvent>) {
    Without(events, PrintStage.Completed) && Without(events, PrintStage.Failed) && Without(events, PrintStage.Unconfirmed)
  }

  /** The one event of `stage` that decides the job comes last. */
  ghost predicate DecidedBy(events: seq<PrintJobEvent>, stage: PrintStage) {
    events != [] && events[|events| - 1].stage == stage && Undecided(events[..|events| - 1])
  }

  /** What the Print-Job of one page contributes. */
  lemma PageJob(env: PageEnv, page: PageOfJob, jobId: string, timeout: nat)
    requires Clock(env) && !env.cancelledBefore
    ensures var sent := SendJob(env, page, jobId, timeout);
      && (sent.result.Ok? <==> PagePrinted(env, timeout))
      && (sent.result.Err? && sent.result.error.Plain? <==> PlainlyFails(env, timeout))
      && (sent.result.Ok? ==> if page.IsLast() then DecidedBy(sent.events, PrintStage.Completed) else Undecided(sent.events))
      && (sent.result.Err? && page.index > 0 ==> Undecided(sent.events))
  {
    hide Parsed, ToU32, LastRound, PagePrinted, PollEndOf, PageGivenUp;
    if PageAccepted(env) && env.pollClientBuilt {
      PollEndDecides(env, timeout);
    } else {
      NotPrinted(env, timeout);
    }
  }

  /** The event the failing Print-Job of the first page ends with. */
  lemma FirstPageJob(env: PageEnv, pages: nat, jobId: string, timeout: nat)
    requires Clock(env) && !env.cancelledBefore
    ensures var sent := SendJob(env, PageOfJob(0, pages), jobId, timeout);
      && (IsUnconfirmed(sent.result) ==> DecidedBy(sent.events, PrintStage.Unconfirmed))
      && (sent.result.Err? && sent.result.error.Plain? ==>
            if SetupFailed(env) then Undecided(sent.events) else DecidedBy(sent.events, PrintStage.Failed))
  {
    hide Parsed, ToU32, LastRound, PollEndOf, Clock, PageAccepted, PrinterJobId, AcceptedState, Refusal;
  }

  /** What one page, not the first, contributes. */
  lemma LaterPage(envs: nat -> PageEnv, p: nat, pages: nat, jobId: string, timeout: nat)
    requires Clocks(envs) && 0 < p < pages
    ensures var sent := SendPage(envs, p, pages, jobId, timeout);
      && (sent.result.Ok? <==> PagePrinted(envs(p), timeout))
      && (sent.result.Ok? ==> if p + 1 == pages then DecidedBy(sent.events, PrintStage.Completed) else Undecided(sent.events))
      && (sent.result.Err? ==> sent.result.error.UnconfirmedOutcome? && DecidedBy(sent.events, PrintStage.Unconfirmed))
  {
    hide SendJob, PagePrinted, PlainlyFails;
    var page := PageOfJob(p, pages);
    if envs(p).cancelledBefore {
      NotPrinted(envs(p), timeout);
    } else {
      PageJob(envs(p), page, jobId, timeout);
      var sent := SendJob(envs(p), page, jobId, timeout);
      if sent.result.Err? {
        var outcome := AfterAcceptedPages(p, pages, sent.result.error);
        DecidedAfter(sent.events, [UnconfirmedEvent(jobId, outcome)], PrintStage.Unconfirmed);
      }
    }
  }

  lemma NotPrinted(env: PageEnv, timeout: nat)
    requires env.cancelledBefore || !PageAccepted(env) || !env.pollClientBuilt
    ensures !PagePrinted(env, timeout) && !PageGivenUp(env, timeout)
  {
  }

  /** A set-up failure of the first page, reported without a `failed` event. */
  predicate SetupFailed(env: PageEnv) {
    && !env.cancelledBefore
    && (env.pageFile.None? || !env.sendClientBuilt || (PageAccepted(env) && !env.pollClientBuilt))
  }

  /** The first page leaves nothing a retry could print twice - except that a
      poll client that cannot be built is also reported as a plain failure. */
  ghost predicate PlainlyFails(env: PageEnv, timeout: nat) {
    !PageAccepted(env) || !env.pollClientBuilt || PageGivenUp(env, timeout)
  }

  lemma FirstPage(envs: nat -> PageEnv, pages: nat, jobId: string, timeout: nat)
    requires Clocks(envs) && 0 < pages
    ensures var env, sent := envs(0), SendPage(envs, 0, pages, jobId, timeout);
      && (sent.result.Ok? <==> PagePrinted(env, timeout))
      && (sent.result.Err? && sent.result.error.Plain? <==> PlainlyFails(env, timeout))
      && (sent.result.Ok? ==> if pages == 1 then DecidedBy(sent.events, PrintStage.Completed) else Undecided(sent.events))
      && (IsUnconfirmed(sent.result) ==> DecidedBy(sent.events, PrintStage.Unconfirmed))
      && (PlainlyFails(env, timeout) ==>
            if SetupFailed(env) then Undecided(sent.events) else DecidedBy(sent.events, PrintStage.Failed))
  {
    hide SendJob, PagePrinted, PageGivenUp;
    if envs(0).cancelledBefore {
      NotPrinted(envs(0), timeout);
    } else {
      PageJob(envs(0), PageOfJob(0, pages), jobId, timeout);
      FirstPageJob(envs(0), pages, jobId, timeout);
    }
  }

  lemma FirstPageAcceptance(envs: nat -> PageEnv, pages: nat, jobId: string, timeout: nat)
    requires Clocks(envs)
    ensures Accepted(SendPage(envs, 0, pages, jobId, timeout).events) <==> PageAccepted(envs(0))
  {
    hide Parsed, ToU32, LastRound, PollEndOf;
    var events := SendPage(envs, 0, pages, jobId, timeout).events;
    if PageAccepted(envs(0)) {
      assert IsAcceptance(events[1]);
    }
  }

  lemma DecidedAfter(front: seq<PrintJobEvent>, back: seq<PrintJobEvent>, stage: PrintStage)
    requires Undecided(front)
    ensures DecidedBy(back, stage) ==> DecidedBy(front + back, stage)
    ensures Undecided(back) ==> Undecided(front + back)
  {
    if DecidedBy(back, stage) {
      assert (front + back)[..|front + back| - 1] == front + back[..|back| - 1];
    }
  }

  lemma {:induction false} LaterPages(envs: nat -> PageEnv, p: nat, pages: nat, jobId: string, timeout: nat)
    requires Clocks(envs) && 0 < p < pages
    ensures var sent := SendFrom(envs, p, pages, jobId, timeout);
      && (sent.result.Ok? <==> forall q :: p <= q < pages ==> PagePrinted(envs(q), timeout))
      && (sent.result.Ok? ==> DecidedBy(sent.events, PrintStage.Completed))
      && (sent.result.Err? ==> sent.result.error.UnconfirmedOutcome? && DecidedBy(sent.events, PrintStage.Unconfirmed))
    decreases pages - p
  {
    hide SendPage, PagePrinted, DecidedBy, Undecided;
    LaterPage(envs, p, pages, jobId, timeout);
    var page := SendPage(envs, p, pages, jobId, timeout);
    if page.result.Ok? {
      if p + 1 < pages {
        LaterPages(envs, p + 1, pages, jobId, timeout);
        var rest := SendFrom(envs, p + 1, pages, jobId, timeout).events;
        DecidedAfter(page.events, rest, PrintStage.Completed);
        DecidedAfter(page.events, rest, PrintStage.Unconfirmed);
      } else {
        assert page.events + [] == page.events;
      }
    }
  }

  /** A job succeeds exactly when the printer confirmed every page; it fails
      plainly exactly when its first page does; otherwise it ends unconfirmed.
      Success means one `completed` event, an unconfirmed end one `unconfirmed`
      event, a plain failure one `failed` event (none after a set-up failure) -
      always the last event, and the only one of the three kinds. */
  lemma JobOutcome(envs: nat -> PageEnv, pages: nat, jobId: string, timeout: nat)
    requires Clocks(envs) && 0 < pages
    ensures var job := SendFrom(envs, 0, pages, jobId, timeout);
      && (job.result.Ok? <==> forall p :: 0 <= p < pages ==> PagePrinted(envs(p), timeout))
      && (job.result.Err? && job.result.error.Plain? <==> PlainlyFails(envs(0), timeout))
      && (job.result.Ok? ==> DecidedBy(job.events, PrintStage.Completed))
      && (IsUnconfirmed(job.result) ==> DecidedBy(job.events, PrintStage.Unconfirmed))
      && (PlainlyFails(envs(0), timeout) ==>
            if SetupFailed(envs(0)) then Undecided(job.events) else DecidedBy(job.events, PrintStage.Failed))
  {
    hide SendPage, PagePrinted, DecidedBy, Undecided, PlainlyFails, SetupFailed;
    FirstPage(envs, pages, jobId, timeout);
    var page := SendPage(envs, 0, pages, jobId, timeout);
    if page.result.Ok? {
      var rest := SendFrom(envs, 1, pages, jobId, timeout).events;
      if 1 < pages {
        LaterPages(envs, 1, pages, jobId, timeout);
        DecidedAfter(page.events, rest, PrintStage.Completed);
        DecidedAfter(page.events, rest, PrintStage.Unconfirmed);
      } else {
        assert page.events + rest == page.events;
      }
    }
  }

  // ---- Why a job failed, and its whole timeline ----------------------------------

  /** The printer's number for the accepted page. */
  function JobIdGiven(env: PageEnv): nat
    requires PageAccepted(env)
  {
    ToU32(Parsed(env.answer.value).value.IntegerOr0(Ascii("job-id")))
  }

  lemma LostIff(env: PageEnv, why: LostBecause, timeout: nat)
    requires Clock(env) && PageAccepted(env)
    ensures PollEndOf(env, AcceptedState(env), timeout) == Lost(why) <==> exists k: nat :: LosesAt(env, k, why, timeout)
  {
    hide LosesAt, TickEnd, PageAccepted, AcceptedState, Clock;
    var n := LastRound(env, 0, AcceptedState(env), timeout);
    RoundLoses(env, n, why, timeout);
    forall k: nat | LosesAt(env, k, why, timeout) ensures k == n {
      RoundLoses(env, k, why, timeout);
      EndIsUnique(env, k, n, AcceptedState(env), timeout);
    }
  }

  lemma RoundLoses(env: PageEnv, k: nat, why: LostBecause, timeout: nat)
    requires PageAccepted(env)
    ensures LosesAt(env, k, why, timeout)
       <==> EndsIn(env, k, AcceptedState(env), timeout) && EndOf(env, k, AcceptedState(env), timeout) == Some(Lost(why))
  {
    hide Polls, Parsed, Ascii, Response.IntegerOr0;
    PollsIff(env, k, AcceptedState(env), timeout);
    hide EndsIn;
    TickLoses(env, k, why, timeout);
    EndsInIff(env, k, AcceptedState(env), timeout);
  }

  lemma EndsInIff(env: PageEnv, k: nat, acceptedState: int, timeout: nat)
    ensures EndsIn(env, k, acceptedState, timeout) <==> Polls(env, k, timeout) && EndOf(env, k, acceptedState, timeout).Some?
  {
    hide EndOf, Polls;
    PollsIff(env, k, acceptedState, timeout);
  }

  lemma TickLoses(env: PageEnv, k: nat, why: LostBecause, timeout: nat)
    requires PageAccepted(env)
    ensures LosesAt(env, k, why, timeout)
       <==> Polls(env, k, timeout) && EndOf(env, k, AcceptedState(env), timeout) == Some(Lost(why))
  {
    hide Polls, Parsed, Ascii, Response.IntegerOr0;
  }

  /** What went wrong with a page that was not confirmed. */
  ghost predicate Explains(env: PageEnv, e: PrintError, first: bool, timeout: nat) {
    match e
    case UnconfirmedOutcome(outcome) =>
      && PageAccepted(env) && env.pollClientBuilt
      && outcome.AfterAcceptance? && outcome.printerJobId == JobIdGiven(env)
      && exists k: nat :: LosesAt(env, k, outcome.why, timeout)
    case Plain(cause) =>
      match cause
      case CancelledBeforeFirstPage => env.cancelledBefore && first
      case CancelledBetweenPages => env.cancelledBefore && !first
      case PageUnreadable => !env.cancelledBefore && env.pageFile.None?
      case ClientNotBuilt =>
        && !env.cancelledBefore && env.pageFile.Some?
        && (env.sendClientBuilt ==> PageAccepted(env) && !env.pollClientBuilt)
      case SendFailed => IsPosted(env) && env.answer.None?
      case ResponseUnreadable => IsPosted(env) && env.answer.Some? && Parsed(env.answer.value).Err?
      case IppErrorStatus(code) =>
        && IsPosted(env) && env.answer.Some? && Parsed(env.answer.value).Ok?
        && Parsed(env.answer.value).value.statusCode == code > 0x00FF
      case PrinterGaveUp(state, printerJobId) =>
        && PageAccepted(env) && env.pollClientBuilt
        && printerJobId == JobIdGiven(env) && (state == 7 || state == 8)
        && exists k: nat :: EndsWith(env, k, state, timeout)
      case _ => false
  }

  /** The events of a page that was printed. */
  predicate PrintedEvents(events: seq<PrintJobEvent>, env: PageEnv, jobId: string, last: bool)
    requires PageAccepted(env)
  {
    events == [PrintJobEvent(jobId, PrintStage.Sending, true, "", NoEvidence),
               PrintJobEvent(jobId, PrintStage.Acknowledged, true, "", NoEvidence),
               PrintJobEvent(jobId, PrintStage.Verified, true, "ipp_job_state", FinalState(9, JobIdGiven(env))),
               PrintJobEvent(jobId, if last then PrintStage.Completed else PrintStage.Sent, true, "", NoEvidence)]
  }

  /** What a page that fails has come to. */
  function Reached(env: PageEnv, jobId: string): seq<PrintJobEvent> {
    var sending := PrintJobEvent(jobId, PrintStage.Sending, true, "", NoEvidence);
    var acknowledged := PrintJobEvent(jobId, PrintStage.Acknowledged, true, "", NoEvidence);
    if env.cancelledBefore || env.pageFile.None? then []
    else if PageAccepted(env) then [sending, acknowledged]
    else [sending]
  }

  /** The event that tells how the job failed; a failed set-up has none. */
  function FailureEvent(jobId: string, e: PrintError): seq<PrintJobEvent> {
    match e
    case UnconfirmedOutcome(outcome) => [PrintJobEvent(jobId, PrintStage.Unconfirmed, false, "ipp_job_state", UnknownEnd(outcome))]
    case Plain(cause) =>
      if cause.PageUnreadable? || cause.ClientNotBuilt? then []
      else if cause.PrinterGaveUp?
      then [PrintJobEvent(jobId, PrintStage.Failed, false, "ipp_job_state", FinalState(cause.state, cause.printerJobId))]
      else [PrintJobEvent(jobId, PrintStage.Failed, false, "", NoEvidence)]
  }

  /** The error a job ends with when page `p` is its first that was not
      confirmed: the page's own on the first page, and behind accepted pages
      the outcome that names it. */
  ghost predicate FailsAt(env: PageEnv, p: nat, pages: nat, e: PrintError, timeout: nat) {
    if p == 0 then Explains(env, e, true, timeout)
    else
      && e.UnconfirmedOutcome? && e.outcome.AfterAcceptedPages?
      && e.outcome.failedIndex == p && e.outcome.pages == pages
      && Explains(env, e.outcome.cause, false, timeout)
  }

  /** The pages from `p` on: the printed ones in order, up to the first that was
      not confirmed, where the job fails. */
  ghost predicate Timeline(envs: nat -> PageEnv, p: nat, pages: nat, jobId: string, timeout: nat, r: PrintResult,
                           events: seq<PrintJobEvent>)
    requires p <= pages
    decreases pages - p
  {
    if p == pages then r.Ok? && events == []
    else if PagePrinted(envs(p), timeout) then
      && |events| >= 4
      && PrintedEvents(events[..4], envs(p), jobId, p + 1 == pages)
      && Timeline(envs, p + 1, pages, jobId, timeout, r, events[4..])
    else
      && r.Err? && FailsAt(envs(p), p, pages, r.error, timeout)
      && events == Reached(envs(p), jobId) + FailureEvent(jobId, r.error)
  }

  lemma PrintJobExplained(env: PageEnv, page: PageOfJob, jobId: string, timeout: nat)
    requires Clock(env) && !env.cancelledBefore
    ensures var sent := SendJob(env, page, jobId, timeout);
      && (sent.result.Err? ==>
            && Explains(env, sent.result.error, page.index == 0, timeout)
            && sent.events == Reached(env, jobId) + if page.index == 0 then FailureEvent(jobId, sent.result.error) else [])
      && (sent.result.Ok? ==> PageAccepted(env) && PrintedEvents(sent.events, env, jobId, page.IsLast()))
  {
    hide Parsed, LastRound, PollEndOf, LosesAt, EndsWith, Clock, Ascii, Response.IntegerOr0;
    if PageAccepted(env) && env.pollClientBuilt {
      var end := PollEndOf(env, AcceptedState(env), timeout);
      match end
      case Printed =>
      case GaveUp(state) => GivenUpIff(env, state, timeout);
      case Lost(why) => LostIff(env, why, timeout);
    }
  }

  lemma GivenUpIff(env: PageEnv, state: int, timeout: nat)
    requires Clock(env) && PageAccepted(env)
    ensures PollEndOf(env, AcceptedState(env), timeout) == GaveUp(state)
       ==> (state == 7 || state == 8) && exists k: nat :: EndsWith(env, k, state, timeout)
  {
    hide TickEnd, Reads, Polls, PageAccepted, AcceptedState, Clock;
    var n := LastRound(env, 0, AcceptedState(env), timeout);
    GoesOnIff(env.ticks(n), StateBefore(env, n, AcceptedState(env)), env.pollStart + timeout);
    RoundDecides(env, n, timeout);
  }

  /** The whole job in the printer's terms: every page that was printed left its
      four events, in page order, and the first page that was not decides the
      error and the last event. */
  lemma {:induction false} JobTimeline(envs: nat -> PageEnv, p: nat, pages: nat, jobId: string, timeout: nat)
    requires Clocks(envs) && p <= pages
    ensures var sent := SendFrom(envs, p, pages, jobId, timeout);
      Timeline(envs, p, pages, jobId, timeout, sent.result, sent.events)
    decreases pages - p
  {
    hide SendPage, PagePrinted, PrintedEvents, FailsAt, Reached, FailureEvent, PageAccepted;
    if p < pages {
      PageTimeline(envs, p, pages, jobId, timeout);
      var page := SendPage(envs, p, pages, jobId, timeout);
      if page.result.Ok? {
        JobTimeline(envs, p + 1, pages, jobId, timeout);
        var rest := SendFrom(envs, p + 1, pages, jobId, timeout).events;
        assert (page.events + rest)[..4] == page.events && (page.events + rest)[4..] == rest;
      }
    }
  }

  lemma PageTimeline(envs: nat -> PageEnv, p: nat, pages: nat, jobId: string, timeout: nat)
    requires Clocks(envs) && p < pages
    ensures var sent := SendPage(envs, p, pages, jobId, timeout);
      && (sent.result.Ok? <==> PagePrinted(envs(p), timeout))
      && (sent.result.Ok? ==> |sent.events| == 4 && PrintedEvents(sent.events, envs(p), jobId, p + 1 == pages))
      && (sent.result.Err? ==>
            && FailsAt(envs(p), p, pages, sent.result.error, timeout)
            && sent.events == Reached(envs(p), jobId) + FailureEvent(jobId, sent.result.error))
  {
    hide SendJob, PagePrinted, PageGivenUp, DecidedBy, Undecided, LosesAt, EndsWith;
    if p == 0 {
      FirstPage(envs, pages, jobId, timeout);
    } else {
      LaterPage(envs, p, pages, jobId, timeout);
    }
    if !envs(p).cancelledBefore {
      PrintJobExplained(envs(p), PageOfJob(p, pages), jobId, timeout);
    }
  }

  /** The job's events show an acceptance exactly when the printer's success
      answer to page 1 was read. */
  lemma JobAcceptance(envs: nat -> PageEnv, pages: nat, jobId: string, timeout: nat)
    requires Clocks(envs) && 0 < pages
    ensures Accepted(SendFrom(envs, 0, pages, jobId, timeout).events) <==> PageAccepted(envs(0))
  {
    hide SendPage, PagePrinted, DecidedBy, Undecided, PageGivenUp;
    FirstPageAcceptance(envs, pages, jobId, timeout);
    FirstPage(envs, pages, jobId, timeout);
    var page := SendPage(envs, 0, pages, jobId, timeout);
    if page.result.Ok? {
      assert PagePrinted(envs(0), timeout);
      PrintedIsAccepted(envs(0), timeout);
      var rest := SendFrom(envs, 1, pages, jobId, timeout).events;
      var i :| 0 <= i < |page.events| && IsAcceptance(page.events[i]);
      assert IsAcceptance((page.events + rest)[i]);
    }
  }

  lemma PrintedIsAccepted(env: PageEnv, timeout: nat)
    requires PagePrinted(env, timeout)
    ensures PageAccepted(env)
  {
  }

  /** The printer accepted the job and it is retried all the same exactly when
      the printer gave page 1 up, or its poll client could not be built. */
  lemma RetriedDespiteAcceptance(envs: nat -> PageEnv, pages: nat, jobId: string, timeout: nat)
    requires Clocks(envs) && 0 < pages
    ensures var job := SendFrom(envs, 0, pages, jobId, timeout);
      var env := envs(0);
      (Accepted(job.events) && !job.result.Ok? && !IsUnconfirmed(job.result))
      <==> (PageAccepted(env) && (!env.pollClientBuilt || PageGivenUp(env, timeout)))
  {
    hide SendFrom, PagePrinted, DecidedBy, Undecided, PageGivenUp, PageAccepted;
    JobOutcome(envs, pages, jobId, timeout);
    JobAcceptance(envs, pages, jobId, timeout);
  }

  /** An `unconfirmed` after accepted pages names them: all pages before the
      failed one were confirmed printed, that one was not. */
  lemma {:induction false} AcceptedPagesArePrinted(envs: nat -> PageEnv, p: nat, pages: nat, jobId: string, timeout: nat)
    requires Clocks(envs) && p < pages
    requires var r := SendFrom(envs, p, pages, jobId, timeout).result;
      IsUnconfirmed(r) && r.error.outcome.AfterAcceptedPages?
    ensures var outcome := SendFrom(envs, p, pages, jobId, timeout).result.error.outcome;
      && p <= outcome.failedIndex < pages && 0 < outcome.failedIndex && outcome.pages == pages
      && (forall q :: p <= q < outcome.failedIndex ==> PagePrinted(envs(q), timeout))
      && !PagePrinted(envs(outcome.failedIndex), timeout)
    decreases pages - p
  {
    hide PagePrinted, DecidedBy, Undecided, PageGivenUp, PageAccepted, PollEndOf, Parsed;
    if p == 0 {
      FirstPage(envs, pages, jobId, timeout);
    } else {
      LaterPage(envs, p, pages, jobId, timeout);
    }
    if SendPage(envs, p, pages, jobId, timeout).result.Ok? {
      AcceptedPagesArePrinted(envs, p + 1, pages, jobId, timeout);
    }
  }

  lemma LastPageEvidence(envs: nat -> PageEnv, p: nat, pages: nat, jobId: string, timeout: nat)
    requires Clocks(envs)
    ensures var sent := SendPage(envs, p, pages, jobId, timeout);
      sent.result.Ok? ==>
        && PageAccepted(envs(p))
        && LastVerification(sent.events) == (IPP_JOB_STATE, FinalState(9, PrinterJobId(envs(p))))
  {
    hide PollEndOf, Parsed;
    var page := SendPage(envs, p, pages, jobId, timeout).events;
    if SendPage(envs, p, pages, jobId, timeout).result.Ok? {
      assert |page| == 4 && page[3].verificationMethod == "" && page[..3][..2] == page[..2];
      assert page[2] == VerifiedEvent(jobId, IPP_JOB_STATE, FinalState(9, PrinterJobId(envs(p))));
      assert page[..3][2] == page[2];
    }
  }

  /** A success is reported with the printer's job-state 9 of the last page. */
  lemma {:induction false} SuccessEvidence(envs: nat -> PageEnv, p: nat, pages: nat, jobId: string, timeout: nat)
    requires Clocks(envs) && p < pages
    ensures var sent := SendFrom(envs, p, pages, jobId, timeout);
      sent.result.Ok? ==>
        && PageAccepted(envs(pages - 1))
        && LastVerification(sent.events) == (IPP_JOB_STATE, FinalState(9, PrinterJobId(envs(pages - 1))))
    decreases pages - p
  {
    hide SendPage, PageAccepted, LastVerification;
    var page := SendPage(envs, p, pages, jobId, timeout).events;
    var rest := SendFrom(envs, p + 1, pages, jobId, timeout).events;
    if SendFrom(envs, p, pages, jobId, timeout).result.Err? {
    } else if p + 1 < pages {
      SuccessEvidence(envs, p + 1, pages, jobId, timeout);
      VerificationAfter(page, rest);
    } else {
      assert page + rest == page;
      LastPageEvidence(envs, p, pages, jobId, timeout);
    }
  }

  lemma {:induction false} VerificationAfter(front: seq<PrintJobEvent>, back: seq<PrintJobEvent>)
    requires LastVerification(back) != ("", NoEvidence)
    ensures LastVerification(front + back) == LastVerification(back)
    decreases |back|
  {
    var e, init := back[|back| - 1], back[..|back| - 1];
    assert (front + back)[|front + back| - 1] == e && (front + back)[..|front + back| - 1] == front + init;
    if !(e.stage == PrintStage.Verified || e.verificationMethod != "") {
      VerificationAfter(front, init);
    }
  }
}
