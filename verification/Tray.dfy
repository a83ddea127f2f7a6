/** The tray's job list and icon, and its fail-closed filter: events of other
    users leave nothing behind. */
module Tray {
  import opened Common
  import opened PrintEvents

  const MAX_RECENT_JOBS := 5

  datatype IconState = Green | Yellow | Red | Gray

  datatype DisplayStatus = InProgress | Completed | Failed | Unconfirmed

  datatype RecentJob = RecentJob(jobId: string, targetPrinter: string, status: DisplayStatus, timestamp: int)

  datatype FilterState = Pending | Disabled | User(name: string)

  datatype TrayEvent =
    | Created(jobId: string, requestingUser: Option<string>, targetPrinter: string, now: int)
    | StateChanged(jobId: string, newState: JobState, requestingUser: Option<string>)
    | Print(jobId: string, stage: PrintStage, success: bool)
    | Polled(online: bool)
    | Detected(filter: FilterState)

  // ---- The filter --------------------------------------------------------------------

  function Lower(c: char): char {
    if 'A' <= c <= 'Z' then c - 'A' + 'a' else c
  }

  predicate SameIgnoringAsciiCase(a: string, b: string) {
    |a| == |b| && forall i :: 0 <= i < |a| ==> Lower(a[i]) == Lower(b[i])
  }

  predicate Passes(filter: FilterState, user: Option<string>) {
    match filter
    case Pending => false
    case Disabled => true
    case User(name) => user.Some? && SameIgnoringAsciiCase(user.value, name)
  }

  // ---- The list and the icon ----------------------------------------------------------

  datatype View = View(recent: seq<RecentJob>, icon: IconState, filter: FilterState)

  const FRESH := View([], Gray, Pending)

  predicate Lists(recent: seq<RecentJob>, jobId: string) {
    exists i :: 0 <= i < |recent| && recent[i].jobId == jobId
  }

  function FirstWith(recent: seq<RecentJob>, jobId: string): (i: nat)
    requires Lists(recent, jobId)
    ensures i < |recent| && recent[i].jobId == jobId
    ensures forall j :: 0 <= j < i ==> recent[j].jobId != jobId
  {
    if recent[0].jobId == jobId then 0 else
      assert Lists(recent[1..], jobId) by {
        var i :| 0 <= i < |recent| && recent[i].jobId == jobId;
        assert recent[1..][i - 1].jobId == jobId;
      }
      1 + FirstWith(recent[1..], jobId)
  }

  /** The newest at most five. */
  function Newest(jobs: seq<RecentJob>): seq<RecentJob> {
    if |jobs| <= MAX_RECENT_JOBS then jobs else jobs[..MAX_RECENT_JOBS]
  }

  function WithStatus(v: View, jobId: string, status: DisplayStatus, icon: IconState): View {
    if Lists(v.recent, jobId)
    then
      var i := FirstWith(v.recent, jobId);
      v.(recent := v.recent[i := v.recent[i].(status := status)], icon := icon)
    else v
  }

  /** What a stage or state change shows: a status and an icon, or nothing. */
  function StageShows(stage: PrintStage, success: bool): Option<(DisplayStatus, IconState)> {
    if stage == PrintStage.Completed && success then Some((DisplayStatus.Completed, Green))
    else if stage == PrintStage.Unconfirmed then Some((DisplayStatus.Unconfirmed, Green))
    else if stage == PrintStage.Failed || !success then Some((DisplayStatus.Failed, Red))
    else None
  }

  function StateShows(state: JobState): Option<(DisplayStatus, IconState)> {
    match state
    case Completed => Some((DisplayStatus.Completed, Green))
    case Failed => Some((DisplayStatus.Failed, Red))
    case Cancelled => Some((DisplayStatus.Failed, Red))
    case Unconfirmed => Some((DisplayStatus.Unconfirmed, Green))
    case _ => None
  }

  function Show(v: View, jobId: string, shown: Option<(DisplayStatus, IconState)>): View {
    match shown
    case None => v
    case Some((status, icon)) => WithStatus(v, jobId, status, icon)
  }

  function Step(v: View, e: TrayEvent): View {
    match e
    case Created(jobId, user, printer, now) =>
      if Passes(v.filter, user)
      then v.(recent := Newest([RecentJob(jobId, printer, InProgress, now)] + v.recent), icon := Yellow)
      else v
    case StateChanged(jobId, state, user) =>
      if Passes(v.filter, user) then Show(v, jobId, StateShows(state)) else v
    case Print(jobId, stage, success) => Show(v, jobId, StageShows(stage, success))
    case Polled(online) => v.(icon := if !online then Gray else if v.icon == Gray then Green else v.icon)
    case Detected(filter) => v.(filter := filter)
  }

  function Run(v: View, events: seq<TrayEvent>): View {
    if events == [] then v else Step(Run(v, events[..|events| - 1]), events[|events| - 1])
  }

  // ---- The tracker -----------------------------------------------------------------------

  class JobTracker {
    var recentJobs: seq<RecentJob>
    var iconState: IconState
    var filter: FilterState

    ghost function Contents(): View
      reads this
    {
      View(recentJobs, iconState, filter)
    }

    constructor ()
      ensures Contents() == FRESH
      ensures recentJobs == [] && iconState == Gray && filter == Pending
    {
      recentJobs, iconState, filter := [], Gray, Pending;
    }

    method SetFilterState(state: FilterState)
      modifies this
      ensures Contents() == Step(old(Contents()), Detected(state))
    {
      filter := state;
    }

    method ShouldProcess(requestingUser: Option<string>) returns (process: bool)
      ensures process == Passes(filter, requestingUser)
    {
      match filter {
        case Pending => return false;
        case Disabled => return true;
        case User(name) => return requestingUser.Some? && SameIgnoringAsciiCase(requestingUser.value, name);
      }
    }

    method AddJob(jobId: string, targetPrinter: string, timestamp: int, status: DisplayStatus)
      requires |recentJobs| <= MAX_RECENT_JOBS
      modifies this
      ensures recentJobs == Newest([RecentJob(jobId, targetPrinter, status, timestamp)] + old(recentJobs))
      ensures iconState == old(iconState) && filter == old(filter)
    {
      recentJobs := [RecentJob(jobId, targetPrinter, status, timestamp)] + recentJobs;
      if |recentJobs| > MAX_RECENT_JOBS {
        recentJobs := recentJobs[..|recentJobs| - 1];
      }
    }

    /** The first listed job with this id. */
    method FindJob(jobId: string) returns (found: Option<nat>)
      ensures found.Some? <==> Lists(recentJobs, jobId)
      ensures found.Some? ==> found.value < |recentJobs| && found.value == FirstWith(recentJobs, jobId)
    {
      for i := 0 to |recentJobs|
        invariant forall j :: 0 <= j < i ==> recentJobs[j].jobId != jobId
      {
        if recentJobs[i].jobId == jobId {
          assert Lists(recentJobs, jobId);
          var first := FirstWith(recentJobs, jobId);
          return Some(i);
        }
      }
      return None;
    }

    method SetStatus(jobId: string, shown: Option<(DisplayStatus, IconState)>) returns (status: Option<DisplayStatus>)
      modifies this
      ensures Contents() == Show(old(Contents()), jobId, shown)
      ensures status == if shown.Some? && Lists(old(recentJobs), jobId) then Some(shown.value.0) else None
    {
      var found := FindJob(jobId);
      if found.Some? && shown.Some? {
        recentJobs := recentJobs[found.value := recentJobs[found.value].(status := shown.value.0)];
        iconState := shown.value.1;
        return Some(shown.value.0);
      }
      return None;
    }

    method OnPrintEvent(jobId: string, stage: PrintStage, success: bool)
      modifies this
      ensures Contents() == Step(old(Contents()), Print(jobId, stage, success))
    {
      var _ := SetStatus(jobId, StageShows(stage, success));
    }

    method OnStateChanged(jobId: string, state: JobState) returns (status: Option<DisplayStatus>)
      modifies this
      ensures Contents() == Show(old(Contents()), jobId, StateShows(state))
      ensures status.Some? <==> StateShows(state).Some? && Lists(old(recentJobs), jobId)
    {
      status := SetStatus(jobId, StateShows(state));
    }

    method SetOnline(online: bool)
      modifies this
      ensures Contents() == Step(old(Contents()), Polled(online))
    {
      if online {
        if iconState == Gray {
          iconState := Green;
        }
      } else {
        iconState := Gray;
      }
    }

    /** One turn of the event loop, or of the loops beside it; says whether a
        notification is shown. */
    method Handle(event: TrayEvent) returns (notified: bool)
      requires |recentJobs| <= MAX_RECENT_JOBS
      modifies this
      ensures Contents() == Step(old(Contents()), event)
      ensures |recentJobs| <= MAX_RECENT_JOBS
      ensures notified ==> (event.Created? || event.StateChanged?) && Passes(old(filter), event.requestingUser)
    {
      notified := false;
      match event {
        case Created(jobId, user, printer, now) =>
          var process := ShouldProcess(user);
          if process {
            AddJob(jobId, printer, now, InProgress);
            iconState := Yellow;
            notified := true;
          }
        case StateChanged(jobId, state, user) =>
          var process := ShouldProcess(user);
          if process {
            var status := OnStateChanged(jobId, state);
            notified := status.Some?;
          }
        case Print(jobId, stage, success) => OnPrintEvent(jobId, stage, success);
        case Polled(online) => SetOnline(online);
        case Detected(state) => SetFilterState(state);
      }
    }
  }

  // ---- Other users' events -------------------------------------------------------------------

  predicate Owned(owner: string -> Option<string>, jobId: string, user: string) {
    owner(jobId).Some? && SameIgnoringAsciiCase(owner(jobId).value, user)
  }

  /** The events that name no job of another user. */
  predicate IsMine(owner: string -> Option<string>, user: string, e: TrayEvent) {
    e.Created? || e.StateChanged? || e.Print? ==> Owned(owner, e.jobId, user)
  }

  /** Every job has one owner, and the filter is detected for `user` or not at
      all. */
  predicate Consistent(owner: string -> Option<string>, user: string, e: TrayEvent) {
    && (e.Created? || e.StateChanged? ==> e.requestingUser == owner(e.jobId))
    && (e.Detected? ==> e.filter == User(user))
  }

  predicate AllConsistent(owner: string -> Option<string>, user: string, events: seq<TrayEvent>) {
    forall i :: 0 <= i < |events| ==> Consistent(owner, user, events[i])
  }

  function Erase(owner: string -> Option<string>, user: string, events: seq<TrayEvent>): seq<TrayEvent> {
    if events == [] then []
    else
      var front := Erase(owner, user, events[..|events| - 1]);
      if IsMine(owner, user, events[|events| - 1]) then front + [events[|events| - 1]] else front
  }

  /** Nothing of another user is listed, and nothing unfiltered passes. */
  predicate Private(owner: string -> Option<string>, user: string, v: View) {
    && (v.filter == Pending || v.filter == User(user))
    && forall i :: 0 <= i < |v.recent| ==> Owned(owner, v.recent[i].jobId, user)
  }

  lemma StepIsPrivate(owner: string -> Option<string>, user: string, v: View, e: TrayEvent)
    requires Private(owner, user, v) && Consistent(owner, user, e)
    ensures Private(owner, user, Step(v, e))
    ensures !IsMine(owner, user, e) ==> Step(v, e) == v
  {
    hide SameIgnoringAsciiCase;
    if (e.StateChanged? || e.Print?) && Lists(v.recent, e.jobId) {
      assert Owned(owner, v.recent[FirstWith(v.recent, e.jobId)].jobId, user);
    }
  }

  /** Erasing every event of other users' jobs leaves the list, the icon and
      the filter unchanged. */
  lemma {:induction false} OthersLeaveNoTrace(owner: string -> Option<string>, user: string, events: seq<TrayEvent>)
    requires AllConsistent(owner, user, events)
    ensures Run(FRESH, Erase(owner, user, events)) == Run(FRESH, events)
    ensures Private(owner, user, Run(FRESH, events))
    decreases |events|
  {
    hide Step, IsMine, Consistent;
    if events != [] {
      var front, last := events[..|events| - 1], events[|events| - 1];
      OthersLeaveNoTrace(owner, user, front);
      StepIsPrivate(owner, user, Run(FRESH, front), last);
      var erased := Erase(owner, user, front);
      assert (erased + [last])[..|erased|] == erased;
    }
  }

  // ---- The newest five ---------------------------------------------------------------------

  function Ids(recent: seq<RecentJob>): (ids: seq<string>)
    ensures |ids| == |recent|
    ensures forall i :: 0 <= i < |recent| ==> ids[i] == recent[i].jobId
  {
    seq(|recent|, i requires 0 <= i < |recent| => recent[i].jobId)
  }

  /** The ids of the jobs the filter let in, newest first. */
  function Admitted(v: View, events: seq<TrayEvent>): seq<string> {
    if events == [] then Ids(v.recent)
    else
      var front, last := events[..|events| - 1], events[|events| - 1];
      if last.Created? && Passes(Run(v, front).filter, last.requestingUser)
      then [last.jobId] + Admitted(v, front)
      else Admitted(v, front)
  }

  function FirstFive(ids: seq<string>): seq<string> {
    if |ids| <= MAX_RECENT_JOBS then ids else ids[..MAX_RECENT_JOBS]
  }

  /** The list always holds the newest at most five admitted jobs, newest
      first. */
  lemma {:induction false} ListIsTheNewest(v: View, events: seq<TrayEvent>)
    requires |v.recent| <= MAX_RECENT_JOBS
    ensures Ids(Run(v, events).recent) == FirstFive(Admitted(v, events))
    decreases |events|
  {
    if events != [] {
      var front, last := events[..|events| - 1], events[|events| - 1];
      ListIsTheNewest(v, front);
      StepIds(Run(v, front), last);
    }
  }

  lemma StepIds(v: View, e: TrayEvent)
    requires |v.recent| <= MAX_RECENT_JOBS
    ensures Ids(Step(v, e).recent)
         == if e.Created? && Passes(v.filter, e.requestingUser) then FirstFive([e.jobId] + Ids(v.recent)) else Ids(v.recent)
  {
    hide Passes;
  }

  // ---- What an event shows -------------------------------------------------------------------

  /** The event says that its job was printed, may have been, or was not. */
  predicate SaysPrinted(e: TrayEvent) {
    (e.Print? && e.stage == PrintStage.Completed && e.success) || (e.StateChanged? && e.newState == JobState.Completed)
  }

  predicate SaysUnconfirmed(e: TrayEvent) {
    (e.Print? && e.stage == PrintStage.Unconfirmed) || (e.StateChanged? && e.newState == JobState.Unconfirmed)
  }

  predicate SaysFailed(e: TrayEvent) {
    || (e.Print? && e.stage != PrintStage.Unconfirmed && (e.stage == PrintStage.Failed || !e.success))
    || (e.StateChanged? && (e.newState == JobState.Failed || e.newState == JobState.Cancelled))
  }

  /** An event of a listed job that passes the filter: a printed job shows as
      completed under a green icon, one that may have been printed as
      unconfirmed under a green icon, a failed or cancelled one as failed under
      a red icon, and every other event shows nothing. Nothing else changes. */
  lemma EventShows(v: View, e: TrayEvent)
    requires (e.Print? || (e.StateChanged? && Passes(v.filter, e.requestingUser))) && Lists(v.recent, e.jobId)
    ensures (var t, i := Step(v, e), FirstWith(v.recent, e.jobId);
             && t.filter == v.filter && |t.recent| == |v.recent|
             && (forall j :: 0 <= j < |v.recent| && j != i ==> t.recent[j] == v.recent[j])
             && t.recent[i] == v.recent[i].(status := t.recent[i].status)
             && (SaysPrinted(e) ==> t.recent[i].status == DisplayStatus.Completed && t.icon == Green)
             && (SaysUnconfirmed(e) ==> t.recent[i].status == DisplayStatus.Unconfirmed && t.icon == Green)
             && (SaysFailed(e) ==> t.recent[i].status == DisplayStatus.Failed && t.icon == Red)
             && (!SaysPrinted(e) && !SaysUnconfirmed(e) && !SaysFailed(e) ==> t == v))
  {
  }

  /** A new job that passes is listed first, in progress, under a yellow icon;
      the others move down, and the sixth goes. Events of unlisted jobs and
      events the filter holds back change nothing. */
  lemma NewJobShows(v: View, jobId: string, user: Option<string>, printer: string, now: int)
    requires |v.recent| <= 5
    ensures (var t := Step(v, Created(jobId, user, printer, now));
             if !Passes(v.filter, user) then t == v
             else
               && t.icon == Yellow && t.filter == v.filter
               && |t.recent| == (if |v.recent| < 5 then |v.recent| + 1 else 5)
               && t.recent[0] == RecentJob(jobId, printer, InProgress, now)
               && forall j :: 0 < j < |t.recent| ==> t.recent[j] == v.recent[j - 1])
    ensures forall e: TrayEvent ::
              (e.Print? || e.StateChanged?) && (!Lists(v.recent, e.jobId) || (e.StateChanged? && !Passes(v.filter, e.requestingUser))) ==>
                Step(v, e) == v
  {
    hide Passes;
  }

  /** A filter for a user passes that user's events and no other's, up to the
      case of ASCII letters; before it is known nothing passes, and without one
      everything does. */
  lemma FilterPasses(filter: FilterState, user: Option<string>)
    ensures filter.Pending? ==> !Passes(filter, user)
    ensures filter.Disabled? ==> Passes(filter, user)
    ensures filter.User? ==>
              (Passes(filter, user)
               <==> user.Some? && |user.value| == |filter.name|
                    && forall i :: 0 <= i < |filter.name| ==> SameLetter(user.value[i], filter.name[i]))
  {
    if filter.User? && user.Some? && |user.value| == |filter.name| {
      forall i | 0 <= i < |filter.name| ensures Lower(user.value[i]) == Lower(filter.name[i]) <==> SameLetter(user.value[i], filter.name[i]) {
      }
    }
  }

  /** The same character, or the upper and lower case of one ASCII letter. */
  predicate SameLetter(a: char, b: char) {
    || a == b
    || ('A' <= a <= 'Z' && 'a' <= b <= 'z' && a as int + 32 == b as int)
    || ('a' <= a <= 'z' && 'A' <= b <= 'Z' && a as int == b as int + 32)
  }

  /** The icon is gray while the server is offline; coming back turns gray green
      and keeps what a job has shown. */
  lemma PollShows(v: View, online: bool)
    ensures Step(v, Polled(online)).recent == v.recent && Step(v, Polled(online)).filter == v.filter
    ensures !online ==> Step(v, Polled(online)).icon == Gray
    ensures online ==> Step(v, Polled(online)).icon == if v.icon == Gray then Green else v.icon
  {
  }
}
