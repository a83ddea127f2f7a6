/** What reaches the printer: the backend's requests, read by the fake printer's
    parser. */
module Delivery {
  import opened Common
  import opened IppCodec
  import opened DirectIpp
  import F = FakePrinterIpp

  /** The document of a Print-Job the printer reads in `body`, if any. */
  function DocumentIn(body: seq<byte>, lossy: seq<byte> -> seq<byte>): seq<seq<byte>> {
    match F.Accepted(body, lossy)
    case Ok(request) => if request.operation == PRINT_JOB then [request.document] else []
    case Err(_) => []
  }

  /** The documents of the Print-Jobs among the requests, in order. */
  function Documents(posted: seq<seq<byte>>, lossy: seq<byte> -> seq<byte>): seq<seq<byte>> {
    if posted == [] then []
    else Documents(posted[..|posted| - 1], lossy) + DocumentIn(posted[|posted| - 1], lossy)
  }

  predicate Understood(posted: seq<seq<byte>>, lossy: seq<byte> -> seq<byte>) {
    forall i :: 0 <= i < |posted| ==> F.Accepted(posted[i], lossy).Ok?
  }

  lemma {:induction false} DocumentsAppend(a: seq<seq<byte>>, b: seq<seq<byte>>, lossy: seq<byte> -> seq<byte>)
    ensures Documents(a + b, lossy) == Documents(a, lossy) + Documents(b, lossy)
    decreases |b|
  {
    hide DocumentIn;
    if b == [] {
      assert a + b == a;
    } else {
      var init := b[..|b| - 1];
      assert (a + b)[..|a + b| - 1] == a + init && (a + b)[|a + b| - 1] == b[|b| - 1];
      DocumentsAppend(a, init, lossy);
    }
  }

  lemma OneDocument(body: seq<byte>, lossy: seq<byte> -> seq<byte>)
    ensures Documents([body], lossy) == DocumentIn(body, lossy)
  {
    hide DocumentIn;
    assert [body][..0] == [];
  }

  /** The requests' texts and numbers fit their fields. */
  predicate Fits(job: JobInfo, timeout: nat) {
    && |job.printerUri| < U16 && |job.format| < U16 && |job.name| < U16
    && timeout / POLL_SLEEP_MS + 102 < U32
  }

  lemma {:induction false} PollsCarryNoDocument(printerUri: seq<byte>, printerJobId: nat, n: nat, lossy: seq<byte> -> seq<byte>)
    requires |printerUri| < U16 && printerJobId < U32 && 100 + n < U32 && F.KeepsUtf8(lossy)
    ensures (var polls := PollRequests(printerUri, printerJobId, n);
             Documents(polls, lossy) == [] && Understood(polls, lossy))
    decreases n
  {
    hide PollRequests, F.Accepted, F.KeepsUtf8, Message, Parsed;
    if n == 0 {
      NoPollRequests(printerUri, printerJobId);
    } else {
      OnePollRequest(printerUri, printerJobId, n - 1);
      PollsCarryNoDocument(printerUri, printerJobId, n - 1, lossy);
      F.GetJobAttributesArrives(printerUri, ToI32(printerJobId), 100 + n, lossy);
      var polls := PollRequests(printerUri, printerJobId, n);
      assert polls[..n - 1] == PollRequests(printerUri, printerJobId, n - 1);
    }
  }

  lemma PollsAreBounded(env: PageEnv, acceptedState: int, timeout: nat)
    requires Clock(env)
    ensures PollsSent(env, acceptedState, timeout) <= timeout / POLL_SLEEP_MS + 2
  {
  }

  lemma PrintJobCarriesItsPage(job: JobInfo, page: seq<byte>, lossy: seq<byte> -> seq<byte>)
    requires |job.printerUri| < U16 && |job.format| < U16 && |job.name| < U16 && F.KeepsUtf8(lossy)
    ensures Documents([PrintJobPost(job, page)], lossy) == [page] && Understood([PrintJobPost(job, page)], lossy)
  {
    hide F.Accepted, F.KeepsUtf8, Message, Documents;
    F.PrintJobArrives(job.printerUri, job.format, job.name, 1, job.copies, page, lossy);
    OneDocument(PrintJobPost(job, page), lossy);
  }

  lemma PageCarriesItsDocument(env: PageEnv, job: JobInfo, timeout: nat, lossy: seq<byte> -> seq<byte>)
    requires Clock(env) && !env.cancelledBefore && Fits(job, timeout) && F.KeepsUtf8(lossy)
    ensures (var posts := PagePosts(env, job, timeout);
             && Documents(posts, lossy) == (if IsPosted(env) then [env.pageFile.value] else [])
             && Understood(posts, lossy))
  {
    hide F.Accepted, F.KeepsUtf8, Documents, PrintJobPost, PollRequests, LastRound, AcceptedState, PageAccepted, Parsed, Clock;
    if IsPosted(env) {
      var post := [PrintJobPost(job, env.pageFile.value)];
      PrintJobCarriesItsPage(job, env.pageFile.value, lossy);
      if PageAccepted(env) && env.pollClientBuilt {
        var n := PollsSent(env, AcceptedState(env), timeout);
        PollsAreBounded(env, AcceptedState(env), timeout);
        PollsCarryNoDocument(job.printerUri, PrinterJobId(env), n, lossy);
        DocumentsAppend(post, PollRequests(job.printerUri, PrinterJobId(env), n), lossy);
      }
    } else {
      assert Documents([], lossy) == [] by { NoDocuments(lossy); }
    }
  }

  lemma NoDocuments(lossy: seq<byte> -> seq<byte>)
    ensures Documents([], lossy) == []
  {
  }

  /** `documents` are the files of the pages from `p` on: as many as possible,
      given that a page is posted only after the one before it was confirmed
      printed. */
  ghost predicate AreThePages(envs: nat -> PageEnv, p: nat, pages: nat, timeout: nat, documents: seq<seq<byte>>) {
    && p + |documents| <= pages
    && (forall q: nat :: p <= q < p + |documents| ==> IsPosted(envs(q)) && documents[q - p] == envs(q).pageFile.value)
    && (forall q: nat :: p <= q < p + |documents| - 1 ==> PagePrinted(envs(q), timeout))
    && (p + |documents| < pages ==>
          || !IsPosted(envs(p + |documents|))
          || (documents != [] && !PagePrinted(envs(p + |documents| - 1), timeout)))
  }

  lemma SentIffPrinted(envs: nat -> PageEnv, p: nat, pages: nat, jobId: string, timeout: nat)
    requires Clocks(envs) && p < pages
    ensures SendPage(envs, p, pages, jobId, timeout).result.Ok? <==> PagePrinted(envs(p), timeout)
    ensures PagePrinted(envs(p), timeout) ==> IsPosted(envs(p))
  {
    hide SendPage, DecidedBy, Undecided, PlainlyFails, SetupFailed;
    if p == 0 {
      FirstPage(envs, pages, jobId, timeout);
    } else {
      LaterPage(envs, p, pages, jobId, timeout);
    }
  }

  lemma OneMorePage(envs: nat -> PageEnv, p: nat, pages: nat, timeout: nat, rest: seq<seq<byte>>)
    requires p < pages && IsPosted(envs(p)) && PagePrinted(envs(p), timeout) && AreThePages(envs, p + 1, pages, timeout, rest)
    ensures AreThePages(envs, p, pages, timeout, [envs(p).pageFile.value] + rest)
  {
    hide PagePrinted;
    var documents := [envs(p).pageFile.value] + rest;
    forall q: nat | p <= q < p + |documents| ensures IsPosted(envs(q)) && documents[q - p] == envs(q).pageFile.value {
      assert q > p ==> documents[q - p] == rest[q - (p + 1)];
    }
  }

  /** Whatever the printer answers: it understands every request of a job; the
      documents it is given are the pages' files, byte for byte, each once and
      in page order; no page is given to it before the one before was
      confirmed printed, and every page that may follow and can be posted is;
      and after a success they are all the pages. `p` is 0 for the whole job. */
  lemma {:induction false} PagesArrive(envs: nat -> PageEnv, p: nat, pages: nat, jobId: string, job: JobInfo, timeout: nat,
                                       lossy: seq<byte> -> seq<byte>)
    requires Clocks(envs) && p <= pages && Fits(job, timeout) && F.KeepsUtf8(lossy)
    ensures (var posted := PostsFrom(envs, p, pages, jobId, job, timeout);
             && AreThePages(envs, p, pages, timeout, Documents(posted, lossy))
             && Understood(posted, lossy)
             && (SendFrom(envs, p, pages, jobId, timeout).result.Ok? ==> |Documents(posted, lossy)| == pages - p))
    decreases pages - p
  {
    hide SendPage, PagePosts, F.Accepted, F.KeepsUtf8, Documents, PagePrinted, PageAccepted, AreThePages;
    NoDocuments(lossy);
    if p == pages {
      assert AreThePages(envs, p, pages, timeout, []) by { NoPage(envs, pages, timeout); }
    } else {
      SentIffPrinted(envs, p, pages, jobId, timeout);
      FirstPost(envs, p, pages, jobId, job, timeout);
      var posts := if envs(p).cancelledBefore then [] else PagePosts(envs(p), job, timeout);
      if !envs(p).cancelledBefore {
        PageCarriesItsDocument(envs(p), job, timeout, lossy);
      }
      if SendPage(envs, p, pages, jobId, timeout).result.Ok? {
        PagesArrive(envs, p + 1, pages, jobId, job, timeout, lossy);
        var rest := PostsFrom(envs, p + 1, pages, jobId, job, timeout);
        DocumentsAppend(posts, rest, lossy);
        OneMorePage(envs, p, pages, timeout, Documents(rest, lossy));
      } else {
        LastPage(envs, p, pages, timeout);
      }
    }
  }

  lemma NoPage(envs: nat -> PageEnv, pages: nat, timeout: nat)
    ensures AreThePages(envs, pages, pages, timeout, [])
  {
  }

  lemma LastPage(envs: nat -> PageEnv, p: nat, pages: nat, timeout: nat)
    requires p < pages && !PagePrinted(envs(p), timeout)
    ensures AreThePages(envs, p, pages, timeout, if IsPosted(envs(p)) then [envs(p).pageFile.value] else [])
  {
    hide PagePrinted, IsPosted;
  }

  // ---- What the requests of a page say ---------------------------------------------

  /** The printer reads a Print-Job of this page, under each name what the job
      gives for it. */
  ghost predicate AsksToPrint(body: seq<byte>, job: JobInfo, page: seq<byte>, lossy: seq<byte> -> seq<byte>) {
    && F.Accepted(body, lossy).Ok?
    && var request := F.Accepted(body, lossy).value;
    && request.operation == 0x0002 && request.requestId == 1
    && F.ValueOf(request.attributes, Ascii("printer-uri")) == Some(job.printerUri)
    && F.ValueOf(request.attributes, Ascii("document-format")) == Some(job.format)
    && F.ValueOf(request.attributes, Ascii("job-name")) == Some(job.name)
    && F.ValueOf(request.attributes, Ascii("copies")) == (if job.copies > 1 then Some(Be32(job.copies)) else None)
    && request.document == page
  }

  /** The printer reads a Get-Job-Attributes for the job that it numbered so. */
  ghost predicate AsksFor(body: seq<byte>, job: JobInfo, printerJobId: nat, requestId: nat, lossy: seq<byte> -> seq<byte>) {
    && F.Accepted(body, lossy).Ok?
    && var request := F.Accepted(body, lossy).value;
    && request.operation == 0x0009 && request.requestId == requestId
    && F.ValueOf(request.attributes, Ascii("printer-uri")) == Some(job.printerUri)
    && F.ValueOf(request.attributes, Ascii("job-id")) == Some(Be32(printerJobId))
  }

  lemma PrintRequestSays(job: JobInfo, page: seq<byte>, lossy: seq<byte> -> seq<byte>)
    requires |job.printerUri| < U16 && |job.format| < U16 && |job.name| < U16 && job.copies < U32 && F.KeepsUtf8(lossy)
    ensures AsksToPrint(PrintJobPost(job, page), job, page, lossy)
  {
    hide F.Accepted, F.KeepsUtf8, Message, PrintJobItems, F.ValueOf, Ascii, Be32;
    F.PrintJobIsUnderstood(job.printerUri, job.format, job.name, 1, job.copies, page, lossy);
  }

  lemma PollSays(job: JobInfo, printerJobId: nat, n: nat, i: nat, lossy: seq<byte> -> seq<byte>)
    requires |job.printerUri| < U16 && printerJobId < U32 && i < n && 101 + i < U32 && F.KeepsUtf8(lossy)
    ensures AsksFor(PollRequests(job.printerUri, printerJobId, n)[i], job, printerJobId, 101 + i, lossy)
  {
    hide F.Accepted, F.KeepsUtf8, Message, GetJobAttributesItems, F.ValueOf, Ascii, Be32;
    F.GetJobAttributesIsUnderstood(job.printerUri, ToI32(printerJobId), 101 + i, lossy);
  }

  /** A page that is posted is one Print-Job, and then one Get-Job-Attributes for
      the number the printer gave it in every round up to the one that decides,
      except in a round that sees the cancel; a page that is not posted sends
      nothing. */
  lemma PageAsks(env: PageEnv, job: JobInfo, timeout: nat, lossy: seq<byte> -> seq<byte>)
    requires Clock(env) && !env.cancelledBefore && Fits(job, timeout) && job.copies < U32 && F.KeepsUtf8(lossy)
    ensures (var posts := PagePosts(env, job, timeout);
             && (posts != [] <==> env.pageFile.Some? && env.sendClientBuilt)
             && (posts != [] ==> AsksToPrint(posts[0], job, env.pageFile.value, lossy))
             && (|posts| > 1 ==> PageAccepted(env) && env.pollClientBuilt)
             && (forall i :: 0 < i < |posts| ==> AsksFor(posts[i], job, JobIdGiven(env), 100 + i, lossy))
             && (PageAccepted(env) && env.pollClientBuilt ==>
                   forall k: nat :: Polls(env, k, timeout) && !GoesOn(env.ticks(k), env.pollStart + timeout) ==>
                     |posts| == 1 + if env.ticks(k).cancelled then k else k + 1))
  {
    hide AsksToPrint, AsksFor, F.KeepsUtf8, PrintJobPost, LastRound, AcceptedState, Parsed, Clock, GoesOn, Polls, PollRequests;
    if env.pageFile.Some? && env.sendClientBuilt {
      PrintRequestSays(job, env.pageFile.value, lossy);
      if PageAccepted(env) && env.pollClientBuilt {
        PollsAreBounded(env, AcceptedState(env), timeout);
        PollsAsk(env, job, timeout, lossy);
        forall k: nat | Polls(env, k, timeout) && !GoesOn(env.ticks(k), env.pollStart + timeout)
          ensures PollsSent(env, AcceptedState(env), timeout) == if env.ticks(k).cancelled then k else k + 1
        {
          PollsSentIs(env, k, timeout);
        }
      }
    }
  }

  lemma PollsAsk(env: PageEnv, job: JobInfo, timeout: nat, lossy: seq<byte> -> seq<byte>)
    requires Clock(env) && Fits(job, timeout) && F.KeepsUtf8(lossy) && PageAccepted(env)
    ensures JobIdGiven(env) == PrinterJobId(env) < U32
    ensures (var n := PollsSent(env, AcceptedState(env), timeout);
             forall i :: 0 <= i < n ==>
               AsksFor(PollRequests(job.printerUri, PrinterJobId(env), n)[i], job, JobIdGiven(env), 101 + i, lossy))
  {
    hide AsksFor, F.KeepsUtf8, LastRound, AcceptedState, Parsed, Clock, PollRequests;
    PollsAreBounded(env, AcceptedState(env), timeout);
    var n := PollsSent(env, AcceptedState(env), timeout);
    forall i | 0 <= i < n
      ensures AsksFor(PollRequests(job.printerUri, PrinterJobId(env), n)[i], job, JobIdGiven(env), 101 + i, lossy)
    {
      PollSays(job, PrinterJobId(env), n, i, lossy);
    }
  }

  lemma PollsSentIs(env: PageEnv, k: nat, timeout: nat)
    requires Clock(env) && PageAccepted(env) && Polls(env, k, timeout) && !GoesOn(env.ticks(k), env.pollStart + timeout)
    ensures PollsSent(env, AcceptedState(env), timeout) == if env.ticks(k).cancelled then k else k + 1
  {
    hide Polls, GoesOn, AcceptedState, PageAccepted, Clock, EndOf, EndsIn;
    var n := LastRound(env, 0, AcceptedState(env), timeout);
    RoundGoesOn(env, k, AcceptedState(env), timeout);
    EndsInIff(env, k, AcceptedState(env), timeout);
    EndIsUnique(env, k, n, AcceptedState(env), timeout);
  }
}
