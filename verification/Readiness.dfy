/**
 * Re-reading what a machine can run, against connections that come and go and
 * a shutdown that may begin at any moment. Every step below runs without an
 * await, so a run is any interleaving of them.
 */
module Readiness {
  import opened Outcomes
  import opened Runs

  datatype ProviderReadiness = ProviderReadiness(
    provider: string, state: string, version: Option<string>, directory: Option<string>, problem: Option<string>)

  type Reading = seq<ProviderReadiness>

  /** `sameReadiness`: field by field, and in order. */
  predicate SameReadiness(left: Reading, right: Reading) {
    && |left| == |right|
    && forall i :: 0 <= i < |left| ==>
         && left[i].provider == right[i].provider && left[i].state == right[i].state
         && left[i].version == right[i].version && left[i].directory == right[i].directory
         && left[i].problem == right[i].problem
  }

  lemma SameReadinessIsEquality(left: Reading, right: Reading)
    ensures SameReadiness(left, right) <==> left == right
  {
    if SameReadiness(left, right) {
      assert forall i :: 0 <= i < |left| ==> left[i] == right[i];
    }
  }

  datatype Phase = AwaitingHandshake | Authorizing | Established | Closed

  /** A hub's connection: the reading it was built with, and whether it was ended so that the hub dials again. */
  datatype Connection = Connection(phase: Phase, handed: Reading, told: bool) {
    /** Ended with a reason the hub hears; one that has not handshaken is left as it is, and hears nothing. */
    function Rehandshaken(): Connection {
      if phase == Established then Connection(Closed, handed, true) else this
    }
  }

  type Id = nat

  datatype Server = Server(
    readiness: Reading,
    rereading: bool,
    probes: nat,
    stopping: bool,
    live: set<Id>,
    connections: map<Id, Connection>)

  datatype Event =
    | Refresh
    | Answered(reading: Reading)
    | ProbeFailed
    | Connects(id: Id)
    | Handshakes(id: Id)
    | Authorized(id: Id)
    | SocketCloses(id: Id)
    | Stop

  /** Whether `e` can happen now. */
  predicate Enabled(s: Server, e: Event) {
    match e
    case Refresh => true
    case Answered(_) => s.probes > 0
    case ProbeFailed => s.probes > 0
    case Connects(id) => id !in s.connections
    case Handshakes(id) => id in s.connections && s.connections[id].phase == AwaitingHandshake
    case Authorized(id) => id in s.connections && s.connections[id].phase == Authorizing
    case SocketCloses(id) => id in s.connections
    case Stop => true
  }

  /** The reading a probe brought back is one to tell every hub about. */
  predicate Lands(s: Server, reading: Reading) {
    !SameReadiness(s.readiness, reading) && !s.stopping
  }

  function Open(s: Server): (open: set<Id>) {
    set id | id in s.live && id in s.connections && s.connections[id].phase != Closed
  }

  /** Every open connection asked to re-handshake, and the rest forgotten. */
  function TellAll(s: Server): map<Id, Connection> {
    map id | id in s.connections :: if id in Open(s) then s.connections[id].Rehandshaken() else s.connections[id]
  }

  function Step(s: Server, e: Event): Server {
    match e
    case Refresh => if s.stopping || s.rereading then s else s.(rereading := true, probes := s.probes + 1)
    case Answered(reading) =>
      var done := s.(rereading := false, probes := if s.probes > 0 then s.probes - 1 else 0);
      if Lands(s, reading) then done.(readiness := reading, live := Open(s), connections := TellAll(s)) else done
    case ProbeFailed => s.(rereading := false, probes := if s.probes > 0 then s.probes - 1 else 0)
    case Connects(id) =>
      s.(live := Open(s) + {id}, connections := s.connections[id := Connection(AwaitingHandshake, s.readiness, false)])
    case Handshakes(id) => At(s, id, Authorizing)
    case Authorized(id) => At(s, id, Established)
    case SocketCloses(id) => At(s, id, Closed)
    case Stop => s.(stopping := true)
  }

  function At(s: Server, id: Id, phase: Phase): Server {
    if id in s.connections then s.(connections := s.connections[id := s.connections[id].(phase := phase)]) else s
  }

  /** A server that has read its providers and has no connections yet. */
  function Booted(reading: Reading): Server {
    Server(reading, false, 0, false, {}, map[])
  }

  // ------------------------------------------------------------------ safety

  ghost predicate Move(a: Server, b: Server) {
    exists e :: Enabled(a, e) && b == Step(a, e)
  }

  ghost function Moves(): (Server, Server) -> bool {
    (a, b) => Move(a, b)
  }

  /** One probe at most, no open connection forgotten, and whoever was told is gone. */
  ghost predicate Safe(s: Server) {
    && s.probes == (if s.rereading then 1 else 0)
    && (forall id :: id in s.connections && s.connections[id].phase != Closed ==> id in s.live)
    && forall id :: id in s.connections && s.connections[id].told ==> s.connections[id].phase == Closed
  }

  lemma StepIsSafe(s: Server, e: Event)
    requires Safe(s) && Enabled(s, e)
    ensures Safe(Step(s, e))
  {
  }

  ghost function SafeAll(): (nat, Server) -> bool {
    (i: nat, s: Server) => Safe(s)
  }

  /** Over every interleaving, from boot on. */
  lemma EveryRunIsSafe(reading: Reading, trace: seq<Server>, n: nat)
    requires IsRun(Moves(), trace) && trace[0] == Booted(reading) && n < |trace|
    ensures Safe(trace[n])
  {
    forall i: nat, a, b | Moves()(a, b) && SafeAll()(i, a) ensures SafeAll()(i + 1, b) {
      var e :| Enabled(a, e) && b == Step(a, e);
      StepIsSafe(a, e);
    }
    HoldsAllAlong(Moves(), trace, SafeAll(), n);
  }

  // ------------------------------------------------- what a changed reading does

  /** The step of a run that puts another reading in place. */
  ghost predicate Changes(trace: seq<Server>, n: nat)
    requires n + 1 < |trace|
  {
    trace[n].readiness != trace[n + 1].readiness
  }

  lemma StepTellsExactlyTheEstablished(s: Server, e: Event, id: Id)
    requires Safe(s) && Enabled(s, e) && id in s.connections && !s.connections[id].told
    ensures id in Step(s, e).connections
    ensures Step(s, e).connections[id].told <==> s.readiness != Step(s, e).readiness && s.connections[id].phase == Established
  {
    if e.Answered? { SameReadinessIsEquality(s.readiness, e.reading); }
  }

  /**
   * Over every run, a changed reading ends every connection that has handshaken,
   * and nothing else is ever told to re-handshake.
   */
  lemma ToldExactlyWhenEstablishedAtAChange(reading: Reading, trace: seq<Server>, n: nat, id: Id)
    requires IsRun(Moves(), trace) && trace[0] == Booted(reading) && n + 1 < |trace|
    requires id in trace[n].connections && !trace[n].connections[id].told
    ensures id in trace[n + 1].connections
    ensures trace[n + 1].connections[id].told <==> Changes(trace, n) && trace[n].connections[id].phase == Established
    ensures trace[n + 1].connections[id].told ==> trace[n + 1].connections[id].phase == Closed
  {
    EveryRunIsSafe(reading, trace, n);
    EveryRunIsSafe(reading, trace, n + 1);
    assert Hop(Moves(), trace, n);
    var e :| Enabled(trace[n], e) && trace[n + 1] == Step(trace[n], e);
    StepTellsExactlyTheEstablished(trace[n], e, id);
  }

  predicate IsMidway(c: Connection) {
    c.phase in {AwaitingHandshake, Authorizing}
  }

  /** The reading changed while `id` was between dialling and having handshaken. */
  ghost predicate PassedOver(trace: seq<Server>, n: nat, id: Id) {
    n + 1 < |trace| && Changes(trace, n) && id in trace[n].connections && IsMidway(trace[n].connections[id])
  }

  ghost predicate Holds(s: Server, id: Id, current: bool) {
    && id in s.connections && s.connections[id].phase != Closed
    && (s.connections[id].handed == s.readiness <==> current)
  }

  lemma StaleBeforeOrPassedOver(s: Server, e: Event, id: Id)
    requires Safe(s) && Enabled(s, e) && Holds(Step(s, e), id, false)
    ensures id in s.connections
    ensures s.readiness == Step(s, e).readiness ==> Holds(s, id, false)
    ensures s.readiness != Step(s, e).readiness ==> IsMidway(s.connections[id])
  {
  }

  /**
   * Over every run, an open connection holds the reading the server holds now,
   * or was midway through its handshake when a changed one was put in place.
   */
  lemma {:induction false} StaleMeansPassedOver(reading: Reading, trace: seq<Server>, n: nat, id: Id)
    requires IsRun(Moves(), trace) && trace[0] == Booted(reading) && n < |trace|
    requires Holds(trace[n], id, false)
    ensures exists j :: 0 <= j < n && PassedOver(trace, j, id)
    decreases n
  {
    if n > 0 {
      EveryRunIsSafe(reading, trace, n - 1);
      assert Hop(Moves(), trace, n - 1);
      var e :| Enabled(trace[n - 1], e) && trace[n] == Step(trace[n - 1], e);
      StaleBeforeOrPassedOver(trace[n - 1], e, id);
      if trace[n - 1].readiness == trace[n].readiness {
        StaleMeansPassedOver(reading, trace, n - 1, id);
      } else {
        assert PassedOver(trace, n - 1, id);
      }
    }
  }

  /**
   * Nothing of a shutdown's beginning is undone: the flag is up, the reading and
   * who has been told about it are as they were, and no probe has been started.
   */
  ghost predicate Frozen(first: Server, s: Server) {
    && s.stopping && s.readiness == first.readiness
    && s.probes <= first.probes && (s.rereading ==> first.rereading)
    && (forall id :: id in first.connections ==> id in s.connections && s.connections[id].told == first.connections[id].told)
    && forall id :: id in s.connections && id !in first.connections ==> !s.connections[id].told
  }

  ghost function FrozenFrom(first: Server): (nat, Server) -> bool {
    (i: nat, s: Server) => Frozen(first, s)
  }

  lemma StepStaysFrozen(first: Server, s: Server, e: Event)
    requires Frozen(first, s) && Enabled(s, e)
    ensures Frozen(first, Step(s, e))
  {
  }

  /**
   * A shutdown may begin in any state, and freezes that state's reading: nobody
   * is told to re-handshake from then on, whoever dials later included, and no
   * re-read is started, not even one that is asked for.
   */
  lemma StoppingFreezesTheReading(s: Server, trace: seq<Server>, n: nat)
    requires IsRun(Moves(), trace) && trace[0] == Step(s, Stop) && n < |trace|
    ensures Frozen(s, trace[n])
  {
    forall i: nat, a, b | Moves()(a, b) && FrozenFrom(s)(i, a) ensures FrozenFrom(s)(i + 1, b) {
      var e :| Enabled(a, e) && b == Step(a, e);
      StepStaysFrozen(s, a, e);
    }
    HoldsAllAlong(Moves(), trace, FrozenFrom(s), n);
  }

  // ----------------------------------------------------------- one step at a time

  /** `t` differs from `s` in its connections alone, and there in `id` alone, which is now at `phase`. */
  ghost predicate OnlyMoves(s: Server, t: Server, id: Id, phase: Phase) {
    && t.readiness == s.readiness && t.rereading == s.rereading && t.probes == s.probes && t.stopping == s.stopping
    && t.live == s.live && t.connections.Keys == s.connections.Keys && id in t.connections
    && t.connections[id].phase == phase && t.connections[id].handed == s.connections[id].handed
    && t.connections[id].told == s.connections[id].told
    && forall other :: other in s.connections && other != id ==> t.connections[other] == s.connections[other]
  }

  /** What a hub's own progress does: its phase moves on, what it was handed stays, and no other connection notices. */
  lemma ProgressIsOneConnections(s: Server, id: Id)
    requires id in s.connections
    ensures OnlyMoves(s, Step(s, Handshakes(id)), id, Authorizing)
    ensures OnlyMoves(s, Step(s, Authorized(id)), id, Established)
    ensures OnlyMoves(s, Step(s, SocketCloses(id)), id, Closed)
  {
  }

  /** A reading that comes back is the server's from then on, exactly when no shutdown has begun. */
  lemma AnswersLandUnlessStopping(s: Server, reading: Reading)
    requires Enabled(s, Answered(reading))
    ensures var t := Step(s, Answered(reading));
            && t.readiness == (if s.stopping then s.readiness else reading)
            && t.stopping == s.stopping && !t.rereading && t.probes == s.probes - 1
            && (s.stopping || s.readiness == reading ==> t.live == s.live && t.connections == s.connections)
  {
    SameReadinessIsEquality(s.readiness, reading);
  }

  /** From dialling to having handshaken, whatever the server was doing: the hub holds the reading of that moment. */
  lemma AHubIsHandedTheReadingOfItsDial(s: Server, id: Id)
    requires id !in s.connections
    ensures var hub := [Connects(id), Handshakes(id), Authorized(id)];
            var t := Play(s, hub);
            && Plays(s, hub)
            && t.connections == s.connections[id := Connection(Established, s.readiness, false)]
            && t.readiness == s.readiness && t.rereading == s.rereading && t.probes == s.probes && t.stopping == s.stopping
            && id in t.live
            && forall other :: other in s.connections ==> (other in t.live <==> other in s.live && s.connections[other].phase != Closed)
  {
    var hub := [Connects(id), Handshakes(id), Authorized(id)];
    var dialled := Step(s, Connects(id));
    var shaking := Step(dialled, Handshakes(id));
    assert hub[1..] == [Handshakes(id), Authorized(id)] && hub[1..][1..] == [Authorized(id)] && [Authorized(id)][1..] == [];
    assert Play(shaking, [Authorized(id)]) == Step(shaking, Authorized(id));
    assert Play(dialled, hub[1..]) == Step(shaking, Authorized(id));
    assert Plays(Step(shaking, Authorized(id)), []);
    assert Plays(shaking, [Authorized(id)]);
    assert Plays(dialled, hub[1..]);
  }

  // ------------------------------------------------------------ what hubs hold

  /** Every open connection was handed the reading this server holds now. */
  ghost predicate Current(s: Server) {
    forall id :: id in s.connections && s.connections[id].phase != Closed ==> s.connections[id].handed == s.readiness
  }

  /** Every hub that has handshaken holds the reading this server holds now: what a re-read is for. */
  ghost predicate HubsAreCurrent(s: Server) {
    forall id :: id in s.connections && s.connections[id].phase == Established ==> s.connections[id].handed == s.readiness
  }

  /** A connection that has dialled and has not handshaken yet. */
  ghost predicate Midway(s: Server) {
    exists id :: id in s.connections && IsMidway(s.connections[id])
  }

  /** Nothing but a changed reading can leave an open connection behind. */
  lemma OtherStepsKeepCurrent(s: Server, e: Event)
    requires Current(s) && Enabled(s, e) && (e.Answered? ==> !Lands(s, e.reading))
    ensures Current(Step(s, e))
  {
  }

  /**
   * A changed reading leaves every open connection current exactly when none
   * of them was midway: those are not ended, and keep what they were built with.
   */
  lemma LandingKeepsCurrentExactlyWhenNobodyIsMidway(s: Server, reading: Reading)
    requires Safe(s) && Current(s) && Enabled(s, Answered(reading)) && Lands(s, reading)
    ensures Current(Step(s, Answered(reading))) <==> !Midway(s)
  {
    var t := Step(s, Answered(reading));
    SameReadinessIsEquality(s.readiness, reading);
    if Midway(s) {
      var id :| id in s.connections && IsMidway(s.connections[id]);
      assert id in Open(s);
      assert t.connections[id].phase != Closed && t.connections[id].handed == s.readiness;
    }
  }

  /** The events by which a connection midway finishes its handshake. */
  function Finishing(s: Server, id: Id): seq<Event>
    requires id in s.connections
  {
    if s.connections[id].phase == AwaitingHandshake then [Handshakes(id), Authorized(id)] else [Authorized(id)]
  }

  function Play(s: Server, events: seq<Event>): Server
    decreases |events|
  {
    if events == [] then s else Play(Step(s, events[0]), events[1..])
  }

  ghost predicate Plays(s: Server, events: seq<Event>)
    decreases |events|
  {
    events == [] || (Enabled(s, events[0]) && Plays(Step(s, events[0]), events[1..]))
  }

  /**
   * And it shows: a connection that was midway when a changed reading landed
   * finishes its handshake with the old one, as an established hub that nothing
   * will tell.
   */
  lemma MidwayGoesStale(s: Server, reading: Reading, id: Id)
    requires Safe(s) && Current(s) && Enabled(s, Answered(reading)) && Lands(s, reading)
    requires id in s.connections && IsMidway(s.connections[id])
    ensures var t := Step(s, Answered(reading));
            && id in t.connections && Plays(t, Finishing(t, id))
            && var u := Play(t, Finishing(t, id));
               id in u.connections && u.connections[id].phase == Established && u.connections[id].handed != u.readiness
  {
    var t := Step(s, Answered(reading));
    SameReadinessIsEquality(s.readiness, reading);
    assert id in Open(s);
    assert t.connections[id] == s.connections[id].Rehandshaken();
    if t.connections[id].phase == AwaitingHandshake {
      var u := Step(t, Handshakes(id));
      assert [Handshakes(id), Authorized(id)][1..] == [Authorized(id)] && [Authorized(id)][1..] == [];
      assert Play(u, [Authorized(id)]) == Step(u, Authorized(id));
      assert Plays(u, [Authorized(id)]);
    } else {
      assert [Authorized(id)][1..] == [];
      assert Plays(Step(t, Authorized(id)), []);
    }
  }

  /** One hub dials, a re-read changes the reading, and only then does the hub handshake. */
  function StaleRun(first: Reading, second: Reading): seq<Server> {
    var dialled := Step(Booted(first), Connects(0));
    var probing := Step(dialled, Refresh);
    var changed := Step(probing, Answered(second));
    var shaking := Step(changed, Handshakes(0));
    [Booted(first), dialled, probing, changed, shaking, Step(shaking, Authorized(0))]
  }

  /** From boot on, an established hub that holds a reading the server no longer does, and that nothing has told. */
  lemma AStaleHub(first: Reading, second: Reading)
    requires first != second
    ensures IsRun(Moves(), StaleRun(first, second)) && StaleRun(first, second)[0] == Booted(first)
    ensures var last := StaleRun(first, second)[5];
            last.readiness == second && last.connections == map[0 := Connection(Established, first, false)]
  {
    var trace := StaleRun(first, second);
    SameReadinessIsEquality(first, second);
    assert Enabled(trace[0], Connects(0)) && Enabled(trace[1], Refresh) && Enabled(trace[2], Answered(second));
    assert Open(trace[2]) == {0};
    assert Enabled(trace[3], Handshakes(0)) && Enabled(trace[4], Authorized(0));
    forall n | 0 <= n < 5 ensures Hop(Moves(), trace, n) {
      assert Move(trace[n], trace[n + 1]);
    }
  }

  /** A move that does not land a changed reading on a connection midway. */
  ghost predicate CarefulMove(a: Server, b: Server) {
    exists e :: Enabled(a, e) && b == Step(a, e) && (e.Answered? && Lands(a, e.reading) ==> !Midway(a))
  }

  ghost function CarefulMoves(): (Server, Server) -> bool {
    (a, b) => CarefulMove(a, b)
  }

  ghost function CurrentAll(): (nat, Server) -> bool {
    (i: nat, s: Server) => Safe(s) && Current(s)
  }

  /** As long as no changed reading lands on a connection midway, every hub holds the current one. */
  lemma CarefulRunsKeepHubsCurrent(reading: Reading, trace: seq<Server>, n: nat)
    requires IsRun(CarefulMoves(), trace) && trace[0] == Booted(reading) && n < |trace|
    ensures HubsAreCurrent(trace[n])
  {
    forall i: nat, a, b | CarefulMoves()(a, b) && CurrentAll()(i, a) ensures CurrentAll()(i + 1, b) {
      var e :| Enabled(a, e) && b == Step(a, e) && (e.Answered? && Lands(a, e.reading) ==> !Midway(a));
      StepIsSafe(a, e);
      if e.Answered? && Lands(a, e.reading) {
        LandingKeepsCurrentExactlyWhenNobodyIsMidway(a, e.reading);
      } else {
        OtherStepsKeepCurrent(a, e);
      }
    }
    HoldsAllAlong(CarefulMoves(), trace, CurrentAll(), n);
  }

  // ------------------------------------------------------- the server as it runs

  class SessionServer {
    var readiness: Reading
    var rereading: bool
    var probes: nat
    var stopping: bool
    var live: set<Id>
    var connections: map<Id, Connection>

    ghost function View(): Server
      reads this
    {
      Server(readiness, rereading, probes, stopping, live, connections)
    }

    constructor (reading: Reading)
      ensures View() == Booted(reading)
    {
      readiness, rereading, probes, stopping, live, connections := reading, false, 0, false, {}, map[];
    }

    method RefreshReadiness()
      modifies this
      ensures View() == Step(old(View()), Refresh)
      ensures probes == old(probes) + if old(stopping || rereading) then 0 else 1
      ensures rereading == (old(rereading) || !old(stopping))
      ensures unchanged(`readiness) && unchanged(`stopping) && unchanged(`live) && unchanged(`connections)
    {
      if stopping || rereading { return; }
      probes := probes + 1;
      rereading := true;
    }

    /** Whom a reading that comes back ends: those that have handshaken, when it is another one and no shutdown has begun. */
    static ghost predicate IsEnded(before: Server, reading: Reading, id: Id) {
      && !before.stopping && reading != before.readiness
      && id in before.live && id in before.connections && before.connections[id].phase == Established
    }

    /** The rest of a re-read, once its probe has answered. */
    method Resume(reading: Reading)
      requires probes > 0
      modifies this
      ensures View() == Step(old(View()), Answered(reading))
      ensures readiness == if old(stopping) then old(readiness) else reading
      ensures !rereading && probes == old(probes) - 1 && stopping == old(stopping)
      ensures connections.Keys == old(connections).Keys
      ensures forall id :: id in connections ==>
                connections[id] == if IsEnded(old(View()), reading, id) then Connection(Closed, old(connections)[id].handed, true)
                                   else old(connections)[id]
      ensures forall id :: id in live <==>
                && id in old(live)
                && (old(stopping) || reading == old(readiness) || (id in connections && old(connections)[id].phase != Closed))
    {
      SameReadinessIsEquality(readiness, reading);
      probes := probes - 1;
      rereading := false;
      if SameReadiness(readiness, reading) || stopping { return; }
      ghost var before := old(View());
      readiness := reading;
      var left := live;
      while left != {}
        invariant left <= old(live)
        invariant live == set id | id in old(live) && (id in left || id in Open(before))
        invariant connections.Keys == old(connections).Keys
        invariant forall id :: id in connections ==>
                    connections[id] == if id !in left && id in Open(before) then old(connections)[id].Rehandshaken() else old(connections)[id]
        invariant readiness == reading && rereading == false && probes == old(probes) - 1 && stopping == old(stopping)
      {
        var id :| id in left;
        left := left - {id};
        if id !in connections || connections[id].phase == Closed {
          live := live - {id};
        } else {
          connections := connections[id := connections[id].Rehandshaken()];
        }
      }
      assert live == Open(before);
      assert connections == TellAll(before);
    }

    /** A probe that rejected: the reading stands. */
    method Fail()
      requires probes > 0
      modifies this
      ensures View() == Step(old(View()), ProbeFailed)
      ensures !rereading && probes == old(probes) - 1
      ensures unchanged(`readiness) && unchanged(`stopping) && unchanged(`live) && unchanged(`connections)
    {
      probes := probes - 1;
      rereading := false;
    }

    /** A hub dials in: whatever has ended since the last dial is dropped. */
    method Accept(id: Id)
      requires id !in connections
      modifies this
      ensures View() == Step(old(View()), Connects(id))
      ensures connections == old(connections)[id := Connection(AwaitingHandshake, readiness, false)]
      ensures id in live && forall x :: x in old(connections) && old(connections)[x].phase != Closed ==> (x in live <==> x in old(live))
      ensures unchanged(`readiness) && unchanged(`rereading) && unchanged(`probes) && unchanged(`stopping)
    {
      ghost var before := View();
      var left := live;
      while left != {}
        invariant left <= old(live)
        invariant live == set x | x in old(live) && (x in left || x in Open(before))
        invariant connections == old(connections) && readiness == old(readiness) && rereading == old(rereading)
        invariant probes == old(probes) && stopping == old(stopping)
      {
        var ended :| ended in left;
        left := left - {ended};
        if ended !in connections || connections[ended].phase == Closed {
          live := live - {ended};
        }
      }
      assert live == Open(before);
      live := live + {id};
      connections := connections[id := Connection(AwaitingHandshake, readiness, false)];
    }

    method BeginStop()
      modifies this
      ensures View() == Step(old(View()), Stop)
      ensures stopping
      ensures unchanged(`readiness) && unchanged(`rereading) && unchanged(`probes) && unchanged(`live) && unchanged(`connections)
    {
      stopping := true;
    }
  }
}
