/** Counting, on one job's timeline, the dispatch cycles that reached the
    printer. */
module DispatchCycles {
  import opened Common

  datatype Stage = Downloaded | Sending | OtherStage

  /** The timeline cut at every `downloaded`. What stands before the first one
      is a cycle of its own. */
  function Cycles(events: seq<Stage>): (cycles: seq<seq<Stage>>)
    ensures |cycles| > 0
  {
    if events == [] then [[]]
    else
      var front := Cycles(events[..|events| - 1]);
      var last := events[|events| - 1];
      if last.Downloaded? then front + [[]]
      else front[|front| - 1 := front[|front| - 1] + [last]]
  }

  function CyclesThatSent(cycles: seq<seq<Stage>>): (n: nat)
    ensures n <= |cycles|
  {
    Count(cycles, (cycle: seq<Stage>) => Sending in cycle)
  }

  lemma LastCycleCounts(front: seq<seq<Stage>>, last: seq<Stage>)
    ensures CyclesThatSent(front + [last]) == CyclesThatSent(front) + if Sending in last then 1 else 0
  {
    assert (front + [last])[..|front|] == front;
  }

  method CountDispatchCyclesThatSent(events: seq<Stage>) returns (cyclesThatSent: nat)
    ensures cyclesThatSent == CyclesThatSent(Cycles(events))
  {
    hide CyclesThatSent;
    cyclesThatSent := 0;
    var currentCycleCounted := false;
    LastCycleCounts([], []);
    assert [] + [[]] == Cycles([]);
    NoCycles();
    for i := 0 to |events|
      invariant cyclesThatSent == CyclesThatSent(Cycles(events[..i]))
      invariant currentCycleCounted == (Sending in Cycles(events[..i])[|Cycles(events[..i])| - 1])
    {
      ghost var before, after := Cycles(events[..i]), Cycles(events[..i + 1]);
      ghost var n := |before| - 1;
      assert events[..i + 1][..i] == events[..i];
      LastCycleCounts(before[..n], before[n]);
      assert before == before[..n] + [before[n]];
      match events[i] {
        case Downloaded =>
          LastCycleCounts(before, []);
          currentCycleCounted := false;
        case Sending =>
          LastCycleCounts(before[..n], before[n] + [Sending]);
          assert after == before[..n] + [before[n] + [Sending]];
          if !currentCycleCounted {
            cyclesThatSent := cyclesThatSent + 1;
            currentCycleCounted := true;
          }
        case OtherStage =>
          LastCycleCounts(before[..n], before[n] + [OtherStage]);
          assert after == before[..n] + [before[n] + [OtherStage]];
      }
    }
    assert events[..|events|] == events;
  }

  lemma NoCycles()
    ensures CyclesThatSent([]) == 0
  {
  }

  /** A `downloaded` with a `sending` before it. */
  predicate DownloadedAgainAt(events: seq<Stage>, j: nat) {
    j < |events| && events[j] == Downloaded && Sending in events[..j]
  }

  ghost predicate SentBeforeDownloaded(events: seq<Stage>) {
    exists j: nat :: DownloadedAgainAt(events, j)
  }

  /** A `sending` with a `downloaded`, and before that a `sending`, before
      it. */
  ghost predicate SentAgainAt(events: seq<Stage>, k: nat) {
    k < |events| && events[k] == Sending && SentBeforeDownloaded(events[..k])
  }

  ghost predicate SentTwice(events: seq<Stage>) {
    exists k: nat :: SentAgainAt(events, k)
  }

  predicate SentSinceDownloaded(events: seq<Stage>) {
    Sending in Cycles(events)[|Cycles(events)| - 1]
  }

  lemma CountByLast(events: seq<Stage>, last: Stage)
    ensures (var n := CyclesThatSent(Cycles(events));
             var m := CyclesThatSent(Cycles(events + [last]));
             && m == n + (if last.Sending? && !SentSinceDownloaded(events) then 1 else 0)
             && SentSinceDownloaded(events + [last]) == (last.Sending? || (!last.Downloaded? && SentSinceDownloaded(events))))
  {
    hide CyclesThatSent;
    var cycles := Cycles(events);
    var n := |cycles| - 1;
    assert (events + [last])[..|events|] == events;
    assert cycles == cycles[..n] + [cycles[n]];
    LastCycleCounts(cycles[..n], cycles[n]);
    if last.Downloaded? {
      LastCycleCounts(cycles, []);
    } else {
      LastCycleCounts(cycles[..n], cycles[n] + [last]);
      assert Cycles(events + [last]) == cycles[..n] + [cycles[n] + [last]];
    }
  }

  /** What the count tells: none sent, and more than one cycle sent, are read
      off the timeline alone. */
  lemma {:induction false} CountTells(events: seq<Stage>)
    ensures CyclesThatSent(Cycles(events)) == 0 <==> Sending !in events
    ensures CyclesThatSent(Cycles(events)) > 1 <==> SentTwice(events)
    ensures CyclesThatSent(Cycles(events)) == 1 ==> (SentSinceDownloaded(events) <==> !SentBeforeDownloaded(events))
    ensures SentSinceDownloaded(events) ==> Sending in events
    decreases |events|
  {
    hide CyclesThatSent, Cycles, SentSinceDownloaded;
    if events == [] {
      NothingSent();
    } else {
      var k := |events| - 1;
      var front, last := events[..k], events[k];
      CountTells(front);
      CountByLast(front, last);
      assert front + [last] == events;
      assert forall x :: x in events <==> x in front || x == last;
      SentTwiceStep(front, last);
    }
  }

  lemma NothingSent()
    ensures CyclesThatSent(Cycles([])) == 0 && !SentSinceDownloaded([])
  {
    assert Cycles([]) == [] + [[]];
    LastCycleCounts([], []);
  }

  lemma SentTwiceStep(front: seq<Stage>, last: Stage)
    ensures SentTwice(front + [last]) <==> SentTwice(front) || (last.Sending? && SentBeforeDownloaded(front))
    ensures SentBeforeDownloaded(front + [last]) <==> SentBeforeDownloaded(front) || (last.Downloaded? && Sending in front)
  {
    var events := front + [last];
    var n := |front|;
    assert forall k :: 0 <= k <= n ==> events[..k] == front[..k];
    assert front[..n] == front;
    assert forall k: nat :: k < n ==> SentAgainAt(events, k) == SentAgainAt(front, k);
    assert SentAgainAt(events, n) <==> last.Sending? && SentBeforeDownloaded(front);
    assert forall j: nat :: j < n ==> DownloadedAgainAt(events, j) == DownloadedAgainAt(front, j);
    assert DownloadedAgainAt(events, n) <==> last.Downloaded? && Sending in front;
  }
}
