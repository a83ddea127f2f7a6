/** The server's job streams: the address of every live stream, the routing
    registry, the online flags and the connected counter, for any interleaving
    of connects and late cleanups. */
module StreamPeers {
  import opened Common

  /** Machine id to (connection id, peer address). */
  type Peers = map<string, (string, Option<string>)>

  function Without(peers: Peers, machine: string, conn: string): Peers {
    if machine in peers && peers[machine].0 == conn then peers - {machine} else peers
  }

  // ---- Any history of calls -----------------------------------------------------------

  datatype Call =
    | Connected(machine: string, conn: string, peer: Option<string>)
    | Disconnected(machine: string, conn: string)

  function After(calls: seq<Call>): Peers {
    if calls == [] then map[]
    else Changed(After(calls[..|calls| - 1]), calls[|calls| - 1])
  }

  function Changed(peers: Peers, call: Call): Peers {
    match call
    case Connected(machine, conn, peer) => peers[machine := (conn, peer)]
    case Disconnected(machine, conn) => Without(peers, machine, conn)
  }

  /** The newest stream of a machine. */
  function Newest(calls: seq<Call>, machine: string): Option<(string, Option<string>)> {
    if calls == [] then None
    else
      var last := calls[|calls| - 1];
      if last.Connected? && last.machine == machine then Some((last.conn, last.peer))
      else Newest(calls[..|calls| - 1], machine)
  }

  predicate CleanedUp(calls: seq<Call>, machine: string, conn: string) {
    Disconnected(machine, conn) in calls
  }

  /** Every connection has its own id, and is cleaned up after it connected. */
  predicate Fresh(calls: seq<Call>, i: nat)
    requires i < |calls|
  {
    calls[i].Connected? ==> forall j :: 0 <= j < i ==> calls[j].conn != calls[i].conn
  }

  predicate Orderly(calls: seq<Call>) {
    forall i :: 0 <= i < |calls| ==> Fresh(calls, i)
  }

  /** A machine is known exactly while its newest stream is not cleaned up, by
      that stream's id and address, however late older streams are cleaned
      up. */
  lemma {:induction false} PeerIsTheNewestStreams(calls: seq<Call>, machine: string)
    requires Orderly(calls)
    ensures (match Newest(calls, machine)
             case None => machine !in After(calls)
             case Some((conn, peer)) =>
               if CleanedUp(calls, machine, conn) then machine !in After(calls)
               else machine in After(calls) && After(calls)[machine] == (conn, peer))
    decreases |calls|
  {
    if calls != [] {
      var k := |calls| - 1;
      var before, last := calls[..k], calls[k];
      forall i | 0 <= i < k ensures Fresh(before, i) {
        assert Fresh(calls, i);
      }
      PeerIsTheNewestStreams(before, machine);
      assert Fresh(calls, k);
      assert calls == before + [last];
      assert forall c :: c in calls <==> c in before || c == last;
      assert last.Connected? ==> forall c :: c in before ==> c.conn != last.conn;
    }
  }

  // ---- The registry of addresses --------------------------------------------------------

  /** The address of the machine's newest stream, none once that stream is
      cleaned up. */
  ghost function NewestLivePeer(calls: seq<Call>, machine: string): Option<string> {
    match Newest(calls, machine)
    case None => None
    case Some((conn, peer)) => if CleanedUp(calls, machine, conn) then None else peer
  }

  class StreamPeers {
    var live: Peers
    /** Every call made, oldest first. */
    ghost var calls: seq<Call>

    /** The map is what the calls leave, and no connection id was used twice. */
    ghost predicate Valid()
      reads this
    {
      live == After(calls) && Orderly(calls)
    }

    constructor ()
      ensures Valid() && calls == []
    {
      live, calls := map[], [];
    }

    method Connected(machine: string, conn: string, peer: Option<string>)
      requires Valid() && Unused(calls, conn)
      modifies this
      ensures Valid() && calls == old(calls) + [Call.Connected(machine, conn, peer)]
    {
      hide After, Orderly, Unused;
      live := live[machine := (conn, peer)];
      OneMoreCall(calls, Call.Connected(machine, conn, peer));
      calls := calls + [Call.Connected(machine, conn, peer)];
    }

    /** Forgotten unless a newer connection replaced it. */
    method Disconnected(machine: string, conn: string)
      requires Valid()
      modifies this
      ensures Valid() && calls == old(calls) + [Call.Disconnected(machine, conn)]
      ensures live == Without(old(live), machine, conn)
    {
      hide After, Orderly;
      if machine in live && live[machine].0 == conn {
        live := live - {machine};
      }
      OneMoreCall(calls, Call.Disconnected(machine, conn));
      calls := calls + [Call.Disconnected(machine, conn)];
    }

    /** Whatever was called before, and however late: the newest stream's
        address if its cleanup has not run, and none otherwise. */
    method PeerOf(machine: string) returns (peer: Option<string>)
      requires Valid()
      ensures peer == NewestLivePeer(calls, machine)
    {
      PeerIsTheNewestStreams(calls, machine);
      peer := if machine in live then live[machine].1 else None;
    }
  }

  /** No call so far used this connection id. */
  predicate Unused(calls: seq<Call>, conn: string) {
    forall j :: 0 <= j < |calls| ==> calls[j].conn != conn
  }

  lemma OneMoreCall(calls: seq<Call>, call: Call)
    requires Orderly(calls) && (call.Connected? ==> Unused(calls, call.conn))
    ensures Orderly(calls + [call])
    ensures After(calls + [call]) == Changed(After(calls), call)
  {
    hide Changed;
    assert (calls + [call])[..|calls|] == calls;
    forall i | 0 <= i <= |calls| ensures Fresh(calls + [call], i) {
      assert i < |calls| ==> Fresh(calls, i);
    }
  }

  // ---- The life of a stream ---------------------------------------------------------------

  /** How far a stream has come: four steps connect it, five clean it up. */
  datatype Phase =
    | Registered | Known | Online | Live
    | Uncounted | Forgotten | Checked | Unregistered | Gone

  datatype Stream = Stream(machine: string, peer: Option<string>, phase: Phase)

  datatype Hub = Hub(
    streams: map<string, Stream>,
    registry: map<string, string>,
    peers: Peers,
    online: set<string>,
    connected: int)

  const EMPTY := Hub(map[], map[], map[], {}, 0)

  datatype Step =
    | Register(conn: string, machine: string, peer: Option<string>)
    | LearnPeer(conn: string)
    | GoOnline(conn: string)
    | CountUp(conn: string)
    | CountDown(conn: string)
    | ForgetPeer(conn: string)
    | CheckActive(conn: string)
    | Unregister(conn: string)
    | GoOffline(conn: string)

  predicate InPhase(h: Hub, conn: string, phase: Phase) {
    conn in h.streams && h.streams[conn].phase == phase
  }

  predicate Enabled(h: Hub, step: Step) {
    match step
    case Register(conn, _, _) => conn !in h.streams
    case LearnPeer(conn) => InPhase(h, conn, Registered)
    case GoOnline(conn) => InPhase(h, conn, Known)
    case CountUp(conn) => InPhase(h, conn, Online)
    case CountDown(conn) => InPhase(h, conn, Live)
    case ForgetPeer(conn) => InPhase(h, conn, Uncounted)
    case CheckActive(conn) => InPhase(h, conn, Forgotten)
    case Unregister(conn) => InPhase(h, conn, Checked)
    case GoOffline(conn) => InPhase(h, conn, Unregistered)
  }

  function Moved(h: Hub, conn: string, phase: Phase): Hub
    requires conn in h.streams
  {
    h.(streams := h.streams[conn := h.streams[conn].(phase := phase)])
  }

  predicate IsActive(h: Hub, machine: string, conn: string) {
    machine in h.registry && h.registry[machine] == conn
  }

  function Next(h: Hub, step: Step): Hub
    requires Enabled(h, step)
  {
    match step
    case Register(conn, machine, peer) =>
      h.(streams := h.streams[conn := Stream(machine, peer, Registered)], registry := h.registry[machine := conn])
    case LearnPeer(conn) =>
      var s := h.streams[conn];
      Moved(h, conn, Known).(peers := h.peers[s.machine := (conn, s.peer)])
    case GoOnline(conn) => Moved(h, conn, Online).(online := h.online + {h.streams[conn].machine})
    case CountUp(conn) => Moved(h, conn, Live).(connected := h.connected + 1)
    case CountDown(conn) => Moved(h, conn, Uncounted).(connected := h.connected - 1)
    case ForgetPeer(conn) => Moved(h, conn, Forgotten).(peers := Without(h.peers, h.streams[conn].machine, conn))
    case CheckActive(conn) =>
      Moved(h, conn, if IsActive(h, h.streams[conn].machine, conn) then Checked else Gone)
    case Unregister(conn) =>
      var machine := h.streams[conn].machine;
      Moved(h, conn, Unregistered).(registry := if IsActive(h, machine, conn) then h.registry - {machine} else h.registry)
    case GoOffline(conn) => Moved(h, conn, Gone).(online := h.online - {h.streams[conn].machine})
  }

  predicate Possible(h: Hub, steps: seq<Step>)
    decreases |steps|
  {
    steps == [] || (Enabled(h, steps[0]) && Possible(Next(h, steps[0]), steps[1..]))
  }

  function Run(h: Hub, steps: seq<Step>): Hub
    requires Possible(h, steps)
    decreases |steps|
  {
    if steps == [] then h else Run(Next(h, steps[0]), steps[1..])
  }

  /** The life of a stream: registered, its address known, its machine online,
      counted; then uncounted, its address forgotten, and - if it is still the
      one jobs are routed to - checked, unregistered and gone with its machine
      offline, else gone at once. */
  lemma StreamLives(h: Hub, step: Step)
    requires Enabled(h, step)
    ensures (var before := if step.conn in h.streams then Some(h.streams[step.conn].phase) else None;
             var after := Next(h, step).streams[step.conn].phase;
             match step
             case Register(_, _, _) => before == None && after == Registered
             case LearnPeer(_) => before == Some(Registered) && after == Known
             case GoOnline(_) => before == Some(Known) && after == Online
             case CountUp(_) => before == Some(Online) && after == Live
             case CountDown(_) => before == Some(Live) && after == Uncounted
             case ForgetPeer(_) => before == Some(Uncounted) && after == Forgotten
             case CheckActive(conn) =>
               before == Some(Forgotten) && after == if IsActive(h, h.streams[conn].machine, conn) then Checked else Gone
             case Unregister(_) => before == Some(Checked) && after == Unregistered
             case GoOffline(_) => before == Some(Unregistered) && after == Gone)
  {
  }

  // ---- The counter ------------------------------------------------------------------------

  function Counted(h: Hub): set<string> {
    set conn | conn in h.streams && h.streams[conn].phase == Live
  }

  lemma MovedCounted(h: Hub, conn: string, phase: Phase)
    requires conn in h.streams
    ensures Counted(Moved(h, conn, phase)) == Counted(h) - {conn} + if phase == Live then {conn} else {}
  {
  }

  lemma StepMoves(h: Hub, step: Step)
    requires Enabled(h, step)
    ensures step.Register? ==> Counted(Next(h, step)) == Counted(h) && Next(h, step).connected == h.connected
    ensures !step.Register? ==> step.conn in h.streams && step.conn in Next(h, step).streams
    ensures !step.Register? ==> Next(h, step).streams == Moved(h, step.conn, Next(h, step).streams[step.conn].phase).streams
    ensures !step.Register? ==> (step.CountDown? <==> h.streams[step.conn].phase == Live)
    ensures !step.Register? ==> (step.CountUp? <==> Next(h, step).streams[step.conn].phase == Live)
    ensures Next(h, step).connected == h.connected + if step.CountUp? then 1 else if step.CountDown? then -1 else 0
  {
    if step.Register? {
      assert Counted(Next(h, step)) == Counted(h);
    } else {
      hide Counted;
    }
  }

  lemma StepCounts(h: Hub, step: Step)
    requires Enabled(h, step) && h.connected == |Counted(h)|
    ensures Next(h, step).connected == |Counted(Next(h, step))|
  {
    hide Next, Enabled;
    StepMoves(h, step);
    if !step.Register? {
      var t := Next(h, step);
      var phase := t.streams[step.conn].phase;
      MovedCounted(h, step.conn, phase);
      CountedByStreams(t, Moved(h, step.conn, phase));
      assert step.conn in Counted(h) <==> step.CountDown?;
    }
  }

  lemma CountedByStreams(h: Hub, t: Hub)
    requires h.streams == t.streams
    ensures Counted(h) == Counted(t)
  {
  }

  /** The counter is the number of streams opened and not yet cleaned up. */
  lemma {:induction false} CounterIsLiveStreams(h: Hub, steps: seq<Step>)
    requires Possible(h, steps) && h.connected == |Counted(h)|
    ensures Run(h, steps).connected == |Counted(Run(h, steps))| >= 0
    decreases |steps|
  {
    hide Enabled, Next, Counted;
    if steps != [] {
      StepCounts(h, steps[0]);
      CounterIsLiveStreams(Next(h, steps[0]), steps[1..]);
    }
  }

  // ---- The online flag --------------------------------------------------------------------

  predicate PastOnline(phase: Phase) {
    phase.Online? || phase.Live? || phase.Uncounted? || phase.Forgotten? || phase.Checked?
  }

  /** The stream jobs are routed to has gone online. */
  predicate Serves(h: Hub, machine: string) {
    && machine in h.registry
    && h.registry[machine] in h.streams
    && PastOnline(h.streams[h.registry[machine]].phase)
  }

  /** A machine whose routed stream has gone online is shown online. */
  predicate ShownOnline(h: Hub) {
    forall machine :: machine in h.registry && Serves(h, machine) ==> machine in h.online
  }

  /** The registry only names streams of their own machine, and none that is
      past its unregistering. */
  predicate Sound(h: Hub) {
    forall machine :: machine in h.registry ==> Routed(h, machine)
  }

  predicate Routed(h: Hub, machine: string)
    requires machine in h.registry
  {
    var conn := h.registry[machine];
    && conn in h.streams
    && h.streams[conn].machine == machine
    && !h.streams[conn].phase.Unregistered?
    && !h.streams[conn].phase.Gone?
  }

  /** A cleanup that passed its check before a newer stream registered takes
      the machine offline after that stream went online. */
  predicate LateOffline(h: Hub, step: Step) {
    step.GoOffline? && step.conn in h.streams && Serves(h, h.streams[step.conn].machine)
  }

  lemma StepIsSound(h: Hub, step: Step)
    requires Sound(h) && Enabled(h, step)
    ensures Sound(Next(h, step))
  {
    var t := Next(h, step);
    forall machine | machine in t.registry ensures Routed(t, machine) {
      assert machine in h.registry ==> Routed(h, machine);
    }
  }

  /** A step keeps every routed machine shown online unless it is a late
      offline write. */
  lemma StepKeepsShownOnlineIff(h: Hub, step: Step)
    requires Sound(h) && ShownOnline(h) && Enabled(h, step)
    ensures ShownOnline(Next(h, step)) <==> !LateOffline(h, step)
  {
    var t := Next(h, step);
    if LateOffline(h, step) {
      var machine := h.streams[step.conn].machine;
      assert Serves(t, machine) && machine !in t.online;
    } else {
      forall machine | machine in t.registry && Serves(t, machine) ensures machine in t.online {
        assert step.GoOnline? || step.Register? || Serves(h, machine);
      }
    }
  }

  /** Every state of the run shows its routed machines online. */
  predicate AlwaysShown(h: Hub, steps: seq<Step>)
    requires Possible(h, steps)
    decreases |steps|
  {
    ShownOnline(h) && (steps != [] ==> AlwaysShown(Next(h, steps[0]), steps[1..]))
  }

  predicate NeverLate(h: Hub, steps: seq<Step>)
    requires Possible(h, steps)
    decreases |steps|
  {
    steps != [] ==> !LateOffline(h, steps[0]) && NeverLate(Next(h, steps[0]), steps[1..])
  }

  /** Over a whole run, routed machines are always shown online if and only if
      no offline write comes late. */
  lemma {:induction false} AlwaysShownIff(h: Hub, steps: seq<Step>)
    requires Possible(h, steps) && Sound(h) && ShownOnline(h)
    ensures AlwaysShown(h, steps) <==> NeverLate(h, steps)
    decreases |steps|
  {
    hide Enabled, Next, Sound, ShownOnline, LateOffline;
    if steps != [] {
      StepIsSound(h, steps[0]);
      StepKeepsShownOnlineIff(h, steps[0]);
      if ShownOnline(Next(h, steps[0])) {
        AlwaysShownIff(Next(h, steps[0]), steps[1..]);
      }
    }
  }

  /** No stream of the machine stands between its check and its offline
      write. */
  predicate Clear(h: Hub, machine: string) {
    forall conn :: conn in h.streams && h.streams[conn].machine == machine ==>
      !h.streams[conn].phase.Checked? && !h.streams[conn].phase.Unregistered?
  }

  /** Streams only register while no cleanup of their machine is between its
      check and its offline write. */
  predicate Polite(h: Hub, steps: seq<Step>)
    requires Possible(h, steps)
    decreases |steps|
  {
    steps != [] ==>
      && (steps[0].Register? ==> Clear(h, steps[0].machine))
      && Polite(Next(h, steps[0]), steps[1..])
  }

  predicate ChecksHold(h: Hub) {
    && (forall conn :: conn in h.streams && h.streams[conn].phase.Checked? ==> IsActive(h, h.streams[conn].machine, conn))
    && (forall conn :: conn in h.streams && h.streams[conn].phase.Unregistered? ==> h.streams[conn].machine !in h.registry)
  }

  lemma StepKeepsChecks(h: Hub, step: Step)
    requires ChecksHold(h) && Enabled(h, step) && (step.Register? ==> Clear(h, step.machine))
    ensures ChecksHold(Next(h, step)) && !LateOffline(h, step)
  {
  }

  /** Such runs always show routed machines online. */
  lemma {:induction false} PoliteRunsAreNeverLate(h: Hub, steps: seq<Step>)
    requires Possible(h, steps) && ChecksHold(h) && Polite(h, steps)
    ensures NeverLate(h, steps)
    decreases |steps|
  {
    hide Enabled, Next, ChecksHold, Clear, LateOffline;
    if steps != [] {
      StepKeepsChecks(h, steps[0]);
      PoliteRunsAreNeverLate(Next(h, steps[0]), steps[1..]);
    }
  }

  /** From the start, such runs always show routed machines online, and the
      counter is right. */
  lemma PoliteRunsAreShown(steps: seq<Step>)
    requires Possible(EMPTY, steps) && Polite(EMPTY, steps)
    ensures AlwaysShown(EMPTY, steps)
    ensures Run(EMPTY, steps).connected == |Counted(Run(EMPTY, steps))|
  {
    hide Enabled, Next, Possible, Polite, AlwaysShown, NeverLate, Run;
    assert Sound(EMPTY) && ShownOnline(EMPTY) && ChecksHold(EMPTY);
    assert Counted(EMPTY) == {};
    PoliteRunsAreNeverLate(EMPTY, steps);
    AlwaysShownIff(EMPTY, steps);
    CounterIsLiveStreams(EMPTY, steps);
  }

  lemma OvertakenStates(h: Hub, older: string, newer: string, peer: Option<string>)
    requires InPhase(h, older, Checked) && newer !in h.streams
    ensures (var machine := h.streams[older].machine;
             && Enabled(h, Register(newer, machine, peer))
             && var h1 := Next(h, Register(newer, machine, peer));
             && Enabled(h1, LearnPeer(newer))
             && var h2 := Next(h1, LearnPeer(newer));
             && Enabled(h2, GoOnline(newer))
             && var h3 := Next(h2, GoOnline(newer));
             && Enabled(h3, CountUp(newer))
             && var h4 := Next(h3, CountUp(newer));
             && Enabled(h4, Unregister(older))
             && var h5 := Next(h4, Unregister(older));
             && Enabled(h5, GoOffline(older))
             && var h6 := Next(h5, GoOffline(older));
             && IsActive(h6, machine, newer) && InPhase(h6, newer, Live) && machine !in h6.online)
  {
  }

  /** A stream connects while an older one of its machine is cleaned up. */
  function Overtake(older: string, newer: string, machine: string, peer: Option<string>): seq<Step> {
    [Register(newer, machine, peer)] + ([LearnPeer(newer)] + ([GoOnline(newer)] + ([CountUp(newer)]
    + ([Unregister(older)] + ([GoOffline(older)] + [])))))
  }

  /** Any cleanup that passed its check can be overtaken: the new stream is
      connected, counted and routed to, and the machine is shown offline. */
  lemma OvertakenCleanup(h: Hub, older: string, newer: string, peer: Option<string>)
    requires InPhase(h, older, Checked) && newer !in h.streams
    ensures (var machine := h.streams[older].machine;
             var steps := Overtake(older, newer, machine, peer);
             && Possible(h, steps)
             && InPhase(Run(h, steps), newer, Live) && IsActive(Run(h, steps), machine, newer)
             && machine !in Run(h, steps).online)
  {
    hide Next, Enabled, Possible, Run;
    OvertakenStates(h, older, newer, peer);
    var machine := h.streams[older].machine;
    var h1 := Next(h, Register(newer, machine, peer));
    var h2 := Next(h1, LearnPeer(newer));
    var h3 := Next(h2, GoOnline(newer));
    var h4 := Next(h3, CountUp(newer));
    var h5 := Next(h4, Unregister(older));
    var s6 := [GoOffline(older)] + [];
    var s5 := [Unregister(older)] + s6;
    var s4 := [CountUp(newer)] + s5;
    var s3 := [GoOnline(newer)] + s4;
    NoSteps(Next(h5, GoOffline(older)));
    StepThenRest(h5, GoOffline(older), []);
    StepThenRest(h4, Unregister(older), s6);
    StepThenRest(h3, CountUp(newer), s5);
    StepThenRest(h2, GoOnline(newer), s4);
    StepThenRest(h1, LearnPeer(newer), s3);
    StepThenRest(h, Register(newer, machine, peer), [LearnPeer(newer)] + s3);
  }

  lemma NoSteps(h: Hub)
    ensures Possible(h, []) && Run(h, []) == h
  {
  }

  lemma StepThenRest(h: Hub, step: Step, rest: seq<Step>)
    requires Enabled(h, step) && Possible(Next(h, step), rest)
    ensures Possible(h, [step] + rest) && Run(h, [step] + rest) == Run(Next(h, step), rest)
  {
    assert ([step] + rest)[1..] == rest;
  }
}
