/**
 * Two sockets wired to each other through one queue of microtasks: nothing
 * sent is lost, reordered or heard twice, and both ends hear the same close,
 * after everything that was sent before it.
 */
module SocketPairs {
  import opened Outcomes
  import opened Utf16
  import opened Runs

  datatype Closure = Closure(code: nat, reason: Text)

  datatype Side = Hub | Server {
    function Other(): Side {
      if Hub? then Server else Hub
    }
  }

  /** What a listener subscribed from the start has been told. */
  datatype Heard = Frame(text: Text) | Over(reason: Closure)

  datatype Task = Deliver(to: Side, text: Text) | Notify(to: Side, reason: Closure)

  /** One end. `drains` is whether its peer is reading. */
  datatype End = End(
    drains: bool,
    queued: seq<Text>,
    bufferedBytes: nat,
    sent: seq<Text>,
    ended: Option<Closure>,
    heard: seq<Heard>)

  datatype Pair = Pair(hub: End, server: End, tasks: seq<Task>) {
    function At(side: Side): End {
      if side.Hub? then hub else server
    }

    function With(side: Side, end: End): Pair {
      if side.Hub? then this.(hub := end) else this.(server := end)
    }
  }

  datatype Event = Sends(side: Side, text: Text) | Closes(side: Side, reason: Closure) | Drains(side: Side) | Runs

  // -------------------------------------------------------------------- steps

  function Deliveries(to: Side, texts: seq<Text>): seq<Task> {
    seq(|texts|, i requires 0 <= i < |texts| => Deliver(to, texts[i]))
  }

  /** Writes the queue out, in order; an end that has closed takes nothing in. */
  function Flush(p: Pair, side: Side): Pair {
    var end := p.At(side);
    var out := p.With(side, end.(queued := [], bufferedBytes := 0));
    if p.At(side.Other()).ended.Some? then out
    else out.(tasks := p.tasks + Deliveries(side.Other(), end.queued))
  }

  function Send(p: Pair, side: Side, text: Text): Pair {
    var end := p.At(side);
    if end.ended.Some? then p
    else
      var held := p.With(side, end.(sent := end.sent + [text], queued := end.queued + [text],
                                    bufferedBytes := end.bufferedBytes + Utf8Size(text)));
      if end.drains then Flush(held, side) else held
  }

  function EndOne(p: Pair, side: Side, reason: Closure): Pair {
    if p.At(side).ended.Some? then p
    else p.With(side, p.At(side).(ended := Some(reason))).(tasks := p.tasks + [Notify(side, reason)])
  }

  function Close(p: Pair, side: Side, reason: Closure): Pair {
    if p.At(side).ended.Some? then p else EndOne(EndOne(p, side, reason), side.Other(), reason)
  }

  function AsHeard(t: Task): Heard {
    match t
    case Deliver(_, text) => Frame(text)
    case Notify(_, reason) => Over(reason)
  }

  function RunOne(p: Pair): Pair {
    if p.tasks == [] then p
    else
      var t := p.tasks[0];
      var end := p.At(t.to);
      p.With(t.to, end.(heard := end.heard + [AsHeard(t)])).(tasks := p.tasks[1..])
  }

  function Step(p: Pair, e: Event): Pair {
    match e
    case Sends(side, text) => Send(p, side, text)
    case Closes(side, reason) => Close(p, side, reason)
    case Drains(side) => Flush(p, side)
    case Runs => RunOne(p)
  }

  function NewEnd(drains: bool): End {
    End(drains, [], 0, [], None, [])
  }

  /** Two fresh sockets, joined. */
  function Joined(hubDrains: bool, serverDrains: bool): Pair {
    Pair(NewEnd(hubDrains), NewEnd(serverDrains), [])
  }

  // ------------------------------------------------------------- conservation

  function InFlight(tasks: seq<Task>, to: Side): seq<Heard> {
    if tasks == [] then []
    else (if tasks[0].to == to then [AsHeard(tasks[0])] else []) + InFlight(tasks[1..], to)
  }

  function Frames(texts: seq<Text>): seq<Heard> {
    seq(|texts|, i requires 0 <= i < |texts| => Frame(texts[i]))
  }

  function Ending(ended: Option<Closure>): seq<Heard> {
    if ended.None? then [] else [Over(ended.value)]
  }

  function Total(texts: seq<Text>): nat {
    if texts == [] then 0 else Total(texts[..|texts| - 1]) + Utf8Size(texts[|texts| - 1])
  }

  /** Everything `side` has heard or will hear of what has happened so far. */
  function HeardInAll(p: Pair, side: Side): seq<Heard> {
    p.At(side).heard + InFlight(p.tasks, side)
  }

  /** How many of the frames its peer sent `side` gets to hear. */
  function Reached(p: Pair, side: Side): int {
    |HeardInAll(p, side)| - |Ending(p.At(side).ended)|
  }

  /**
   * What `side` hears is the first frames its peer sent, in order, and then the
   * close. What is missing is still queued at the peer, while the pair is open.
   */
  ghost predicate Conserved(p: Pair, side: Side) {
    var peer, n := p.At(side.Other()), Reached(p, side);
    && 0 <= n <= |peer.sent|
    && HeardInAll(p, side) == Frames(peer.sent[..n]) + Ending(p.At(side).ended)
    && (peer.ended.None? ==> peer.sent[n..] == peer.queued)
  }

  /** An end whose peer is reading holds nothing back, so all it sent is heard. */
  ghost predicate HoldsNothing(p: Pair, side: Side) {
    p.At(side).drains ==> p.At(side).queued == [] && Reached(p, side.Other()) == |p.At(side).sent|
  }

  /** The count is of the bytes still queued. */
  ghost predicate CountsBytes(p: Pair, side: Side) {
    p.At(side).bufferedBytes == Total(p.At(side).queued)
  }

  ghost predicate Balanced(p: Pair) {
    && p.hub.ended == p.server.ended
    && (forall side: Side :: CountsBytes(p, side))
    && forall side: Side :: Conserved(p, side)
  }

  ghost predicate Sound(p: Pair) {
    Balanced(p) && forall side: Side :: HoldsNothing(p, side)
  }

  lemma {:induction false} InFlightSplits(a: seq<Task>, b: seq<Task>, to: Side)
    ensures InFlight(a + b, to) == InFlight(a, to) + InFlight(b, to)
  {
    if a == [] {
      assert a + b == b;
    } else {
      assert (a + b)[0] == a[0] && (a + b)[1..] == a[1..] + b;
      InFlightSplits(a[1..], b, to);
    }
  }

  lemma FirstDelivery(to: Side, texts: seq<Text>)
    requires texts != []
    ensures Deliveries(to, texts) == [Deliver(to, texts[0])] + Deliveries(to, texts[1..])
    ensures Frames(texts) == [Frame(texts[0])] + Frames(texts[1..])
  {
  }

  lemma InFlightFirst(t: Task, tasks: seq<Task>, to: Side)
    ensures InFlight([t] + tasks, to) == (if t.to == to then [AsHeard(t)] else []) + InFlight(tasks, to)
  {
    assert ([t] + tasks)[0] == t && ([t] + tasks)[1..] == tasks;
  }

  lemma {:induction false} DeliveriesInFlight(to: Side, texts: seq<Text>, side: Side)
    ensures InFlight(Deliveries(to, texts), side) == if side == to then Frames(texts) else []
  {
    if texts == [] {
      assert Frames(texts) == [];
    } else {
      DeliveriesInFlight(to, texts[1..], side);
      FirstDelivery(to, texts);
      InFlightFirst(Deliver(to, texts[0]), Deliveries(to, texts[1..]), side);
    }
  }

  lemma FramesSplit(a: seq<Text>, b: seq<Text>)
    ensures Frames(a + b) == Frames(a) + Frames(b)
  {
  }

  /** `tasks` grew by `more`, and nothing else `side` is told by has changed. */
  lemma HeardGrows(p: Pair, q: Pair, side: Side, more: seq<Task>)
    requires q.tasks == p.tasks + more && q.At(side).heard == p.At(side).heard
    ensures HeardInAll(q, side) == HeardInAll(p, side) + InFlight(more, side)
  {
    InFlightSplits(p.tasks, more, side);
  }

  lemma OtherIsOther(side: Side)
    ensures side.Other() != side && side.Other().Other() == side
    ensures side == Hub || side.Other() == Hub
  {
  }

  // ------------------------------------------------------- every step is sound

  function Held(p: Pair, side: Side, text: Text): Pair {
    var end := p.At(side);
    p.With(side, end.(sent := end.sent + [text], queued := end.queued + [text],
                      bufferedBytes := end.bufferedBytes + Utf8Size(text)))
  }

  lemma HoldingHeardTheSame(p: Pair, side: Side, text: Text)
    ensures forall s: Side :: HeardInAll(Held(p, side, text), s) == HeardInAll(p, s)
  {
  }

  lemma OneMoreText(texts: seq<Text>, text: Text, n: nat)
    requires n <= |texts|
    ensures (texts + [text])[..n] == texts[..n] && (texts + [text])[n..] == texts[n..] + [text]
  {
  }

  lemma OneMoreCounted(texts: seq<Text>, text: Text)
    ensures Total(texts + [text]) == Total(texts) + Utf8Size(text)
  {
    assert (texts + [text])[..|texts|] == texts;
  }

  lemma HoldingCountsBytes(p: Pair, side: Side, text: Text)
    requires CountsBytes(p, side) && CountsBytes(p, side.Other())
    ensures CountsBytes(Held(p, side, text), side) && CountsBytes(Held(p, side, text), side.Other())
  {
    OneMoreCounted(p.At(side).queued, text);
  }

  lemma HoldingIsConserved(p: Pair, side: Side, text: Text)
    requires Conserved(p, side.Other()) && p.At(side).ended.None?
    ensures Conserved(Held(p, side, text), side.Other())
  {
    OtherIsOther(side);
    HoldingHeardTheSame(p, side, text);
    OneMoreText(p.At(side).sent, text, Reached(p, side.Other()));
  }

  lemma HoldingIsNotHeardHere(p: Pair, side: Side, text: Text)
    requires Conserved(p, side)
    ensures Conserved(Held(p, side, text), side)
  {
    OtherIsOther(side);
    HoldingHeardTheSame(p, side, text);
    assert Held(p, side, text).At(side.Other()) == p.At(side.Other());
  }

  lemma HoldingBalances(p: Pair, side: Side, text: Text)
    requires Balanced(p) && p.At(side).ended.None?
    ensures Balanced(Held(p, side, text))
  {
    OtherIsOther(side);
    HoldingIsConserved(p, side, text);
    HoldingIsNotHeardHere(p, side, text);
    HoldingCountsBytes(p, side, text);
  }

  lemma FlushTells(p: Pair, side: Side)
    requires p.At(side.Other()).ended.None?
    ensures HeardInAll(Flush(p, side), side.Other()) == HeardInAll(p, side.Other()) + Frames(p.At(side).queued)
    ensures HeardInAll(Flush(p, side), side) == HeardInAll(p, side)
  {
    var q, queued, to := Flush(p, side), p.At(side).queued, side.Other();
    OtherIsOther(side);
    var more := Deliveries(to, queued);
    DeliveriesInFlight(to, queued, to);
    DeliveriesInFlight(to, queued, side);
    HeardGrows(p, q, to, more);
    HeardGrows(p, q, side, more);
    assert HeardInAll(p, side) + [] == HeardInAll(p, side);
  }

  lemma WholeIsItsParts(texts: seq<Text>, n: nat)
    requires n <= |texts|
    ensures Frames(texts[..n]) + Frames(texts[n..]) == Frames(texts[..|texts|])
  {
    assert texts[..n] + texts[n..] == texts == texts[..|texts|];
    FramesSplit(texts[..n], texts[n..]);
  }

  lemma OpenFlushReaches(p: Pair, side: Side)
    requires Conserved(p, side.Other()) && p.At(side).ended.None? && p.At(side.Other()).ended.None?
    ensures Conserved(Flush(p, side), side.Other())
    ensures Reached(Flush(p, side), side.Other()) == |p.At(side).sent|
  {
    OtherIsOther(side);
    FlushTells(p, side);
    WholeIsItsParts(p.At(side).sent, Reached(p, side.Other()));
  }

  lemma OpenFlushBalances(p: Pair, side: Side)
    requires Balanced(p) && p.At(side).ended.None?
    ensures Balanced(Flush(p, side)) && Flush(p, side).At(side).queued == []
    ensures Reached(Flush(p, side), side.Other()) == |p.At(side).sent|
    ensures Reached(Flush(p, side), side) == Reached(p, side)
  {
    var q, to := Flush(p, side), side.Other();
    OtherIsOther(side);
    assert CountsBytes(p, to) && Conserved(p, side) && Conserved(p, to);
    FlushTells(p, side);
    OpenFlushReaches(p, side);
    assert CountsBytes(q, side) && CountsBytes(q, to) && Conserved(q, side);
  }

  lemma ClosedFlushBalances(p: Pair, side: Side)
    requires Balanced(p) && p.At(side).ended.Some?
    ensures Balanced(Flush(p, side)) && Flush(p, side).At(side).queued == []
    ensures forall s: Side :: HeardInAll(Flush(p, side), s) == HeardInAll(p, s)
  {
    var q, to := Flush(p, side), side.Other();
    OtherIsOther(side);
    assert Conserved(p, side) && Conserved(p, to);
    assert HeardInAll(q, side) == HeardInAll(p, side) && HeardInAll(q, to) == HeardInAll(p, to);
    assert CountsBytes(p, to) && CountsBytes(q, side) && CountsBytes(q, to);
    assert Conserved(q, to) && Conserved(q, side);
  }

  lemma EndingTells(p: Pair, side: Side, reason: Closure)
    requires p.At(side).ended.None?
    ensures HeardInAll(EndOne(p, side, reason), side) == HeardInAll(p, side) + [Over(reason)]
    ensures HeardInAll(EndOne(p, side, reason), side.Other()) == HeardInAll(p, side.Other())
  {
    OtherIsOther(side);
    var more := [Notify(side, reason)];
    assert more[1..] == [];
    HeardGrows(p, EndOne(p, side, reason), side, more);
    HeardGrows(p, EndOne(p, side, reason), side.Other(), more);
  }

  lemma EndingBalances(p: Pair, side: Side, reason: Closure)
    requires Balanced(p) && p.At(side).ended.None?
    ensures var q := EndOne(EndOne(p, side, reason), side.Other(), reason);
            && Balanced(q)
            && Reached(q, side) == Reached(p, side) && Reached(q, side.Other()) == Reached(p, side.Other())
  {
    var to := side.Other();
    OtherIsOther(side);
    var mid := EndOne(p, side, reason);
    assert Conserved(p, side) && Conserved(p, to);
    EndingTells(p, side, reason);
    EndingTells(mid, to, reason);
    var q := EndOne(mid, to, reason);
    assert CountsBytes(p, side) && CountsBytes(p, to) && CountsBytes(q, side) && CountsBytes(q, to);
    assert Conserved(q, side) && Conserved(q, to);
  }

  lemma RunningChangesNothingHeard(p: Pair, side: Side)
    ensures HeardInAll(RunOne(p), side) == HeardInAll(p, side)
  {
    if p.tasks != [] {
      var t := p.tasks[0];
      if t.to == side {
        assert HeardInAll(RunOne(p), side) == p.At(side).heard + [AsHeard(t)] + InFlight(p.tasks[1..], side);
      }
    }
  }

  lemma SendToAReaderIsSound(p: Pair, side: Side, text: Text)
    requires Sound(p) && p.At(side).ended.None? && p.At(side).drains
    ensures Sound(Flush(Held(p, side, text), side))
  {
    var held, to := Held(p, side, text), side.Other();
    OtherIsOther(side);
    assert HoldsNothing(p, to);
    HoldingBalances(p, side, text);
    HoldingHeardTheSame(p, side, text);
    OpenFlushBalances(held, side);
    assert HoldsNothing(Flush(held, side), side) && HoldsNothing(Flush(held, side), to);
  }

  lemma SendToNobodyIsSound(p: Pair, side: Side, text: Text)
    requires Sound(p) && p.At(side).ended.None? && !p.At(side).drains
    ensures Sound(Held(p, side, text))
  {
    var held, to := Held(p, side, text), side.Other();
    OtherIsOther(side);
    assert HoldsNothing(p, to);
    HoldingBalances(p, side, text);
    HoldingHeardTheSame(p, side, text);
    assert HoldsNothing(held, side) && HoldsNothing(held, to);
  }

  lemma SendIsSound(p: Pair, side: Side, text: Text)
    requires Sound(p)
    ensures Sound(Send(p, side, text))
  {
    if p.At(side).ended.None? {
      if p.At(side).drains {
        SendToAReaderIsSound(p, side, text);
      } else {
        SendToNobodyIsSound(p, side, text);
      }
    }
  }

  lemma FlushIsSound(p: Pair, side: Side)
    requires Sound(p)
    ensures Sound(Flush(p, side))
  {
    OtherIsOther(side);
    var q, to := Flush(p, side), side.Other();
    assert HoldsNothing(p, side) && HoldsNothing(p, to);
    if p.At(side).ended.Some? {
      ClosedFlushBalances(p, side);
    } else {
      OpenFlushBalances(p, side);
    }
    assert HoldsNothing(q, side) && HoldsNothing(q, to);
  }

  lemma CloseIsSound(p: Pair, side: Side, reason: Closure)
    requires Sound(p)
    ensures Sound(Close(p, side, reason))
  {
    OtherIsOther(side);
    var q := Close(p, side, reason);
    assert HoldsNothing(p, side) && HoldsNothing(p, side.Other());
    if p.At(side).ended.None? {
      EndingBalances(p, side, reason);
      assert HoldsNothing(q, side) && HoldsNothing(q, side.Other());
    }
  }

  lemma RunOneIsSound(p: Pair)
    requires Sound(p)
    ensures Sound(RunOne(p))
  {
    var q := RunOne(p);
    forall side: Side ensures Conserved(q, side) && HoldsNothing(q, side) && CountsBytes(q, side) {
      OtherIsOther(side);
      RunningChangesNothingHeard(p, side);
      RunningChangesNothingHeard(p, side.Other());
      assert Conserved(p, side) && HoldsNothing(p, side) && CountsBytes(p, side);
    }
  }

  lemma StepIsSound(p: Pair, e: Event)
    requires Sound(p)
    ensures Sound(Step(p, e))
  {
    match e
    case Sends(side, text) => SendIsSound(p, side, text);
    case Drains(side) => FlushIsSound(p, side);
    case Closes(side, reason) => CloseIsSound(p, side, reason);
    case Runs => RunOneIsSound(p);
  }

  // ----------------------------------------------------------------- every run

  ghost predicate Move(a: Pair, b: Pair) {
    exists e :: b == Step(a, e)
  }

  ghost function Moves(): (Pair, Pair) -> bool {
    (a: Pair, b: Pair) => Move(a, b)
  }

  lemma MoveIsSound(a: Pair, b: Pair)
    requires Move(a, b) && Sound(a)
    ensures Sound(b)
  {
    var e :| b == Step(a, e);
    StepIsSound(a, e);
  }

  lemma StepKeepsDrains(p: Pair, e: Event)
    ensures Step(p, e).hub.drains == p.hub.drains && Step(p, e).server.drains == p.server.drains
  {
  }

  lemma MoveKeepsDrains(a: Pair, b: Pair)
    requires Move(a, b)
    ensures b.hub.drains == a.hub.drains && b.server.drains == a.server.drains
  {
    var e :| b == Step(a, e);
    StepKeepsDrains(a, e);
  }

  ghost function SoundAll(): (nat, Pair) -> bool {
    (i: nat, p: Pair) => Sound(p)
  }

  lemma FreshPairIsSound(hubDrains: bool, serverDrains: bool)
    ensures Sound(Joined(hubDrains, serverDrains))
  {
    var p := Joined(hubDrains, serverDrains);
    forall side: Side ensures Conserved(p, side) {
      assert HeardInAll(p, side) == [];
    }
  }

  /** In every run of sends, closes, drains and microtasks, from two fresh sockets on. */
  lemma EveryRunIsSound(hubDrains: bool, serverDrains: bool, trace: seq<Pair>, n: nat)
    requires IsRun(Moves(), trace) && trace[0] == Joined(hubDrains, serverDrains) && n < |trace|
    ensures Sound(trace[n])
  {
    FreshPairIsSound(hubDrains, serverDrains);
    forall i: nat, a, b | Moves()(a, b) && SoundAll()(i, a) ensures SoundAll()(i + 1, b) {
      MoveIsSound(a, b);
    }
    HoldsAllAlong(Moves(), trace, SoundAll(), n);
  }

  ghost function DrainsAsBuilt(hubDrains: bool, serverDrains: bool): (nat, Pair) -> bool {
    (i: nat, p: Pair) => p.hub.drains == hubDrains && p.server.drains == serverDrains
  }

  lemma DrainingIsFixed(hubDrains: bool, serverDrains: bool, trace: seq<Pair>, n: nat)
    requires IsRun(Moves(), trace) && trace[0] == Joined(hubDrains, serverDrains) && n < |trace|
    ensures trace[n].hub.drains == hubDrains && trace[n].server.drains == serverDrains
  {
    var p := DrainsAsBuilt(hubDrains, serverDrains);
    forall i: nat, a, b | Moves()(a, b) && p(i, a) ensures p(i + 1, b) {
      MoveKeepsDrains(a, b);
    }
    HoldsAllAlong(Moves(), trace, p, n);
  }

  /**
   * The pair the tests drive, both ends reading: at every moment what an end
   * has heard and what is in flight to it are together exactly what the other
   * sent, in order, with the one close behind all of it.
   */
  lemma PairConserves(trace: seq<Pair>, n: nat, side: Side)
    requires IsRun(Moves(), trace) && trace[0] == Joined(true, true) && n < |trace|
    ensures var p := trace[n];
            && p.hub.ended == p.server.ended
            && HeardInAll(p, side) == Frames(p.At(side.Other()).sent) + Ending(p.At(side).ended)
            && p.At(side).bufferedBytes == 0
  {
    var p := trace[n];
    EveryRunIsSound(true, true, trace, n);
    DrainingIsFixed(true, true, trace, n);
    OtherIsOther(side);
    assert Conserved(p, side) && HoldsNothing(p, side.Other()) && HoldsNothing(p, side) && CountsBytes(p, side);
    assert p.At(side.Other()).sent[..|p.At(side.Other()).sent|] == p.At(side.Other()).sent;
  }

  /** Once the microtasks have run: every frame sent before the close heard, and the close heard once, last. */
  lemma QuietPairHasHeardEverything(trace: seq<Pair>, n: nat, side: Side)
    requires IsRun(Moves(), trace) && trace[0] == Joined(true, true) && n < |trace| && trace[n].tasks == []
    ensures var p := trace[n];
            p.At(side).heard == Frames(p.At(side.Other()).sent) + Ending(p.At(side).ended)
  {
    PairConserves(trace, n, side);
  }

  // ------------------------------------------------------- a run and its events

  /** The pair after `events`, in order. */
  function Play(p: Pair, events: seq<Event>): Pair {
    if events == [] then p else Step(Play(p, events[..|events| - 1]), events[|events| - 1])
  }

  /** The reason of the first close, whichever end asked for it. */
  function FirstClose(events: seq<Event>): Option<Closure> {
    if events == [] then None
    else
      var before, last := FirstClose(events[..|events| - 1]), events[|events| - 1];
      if before.None? && last.Closes? then Some(last.reason) else before
  }

  /** The texts of `side`'s sends, in order, up to the first close. */
  function TextsSent(events: seq<Event>, side: Side): seq<Text> {
    if events == [] then []
    else
      var before, last := events[..|events| - 1], events[|events| - 1];
      TextsSent(before, side)
      + if last.Sends? && last.side == side && FirstClose(before).None? then [last.text] else []
  }

  /** Those of them its peer gets: all, when it is reading, and otherwise those drained before the first close. */
  function TextsWritten(events: seq<Event>, side: Side, drains: bool): seq<Text> {
    if drains then TextsSent(events, side)
    else if events == [] then []
    else
      var before, last := events[..|events| - 1], events[|events| - 1];
      if last == Drains(side) && FirstClose(before).None? then TextsSent(before, side)
      else TextsWritten(before, side, drains)
  }

  lemma SendsReachTheirQueue(p: Pair, e: Event, side: Side)
    ensures Step(p, e).At(side).sent == p.At(side).sent +
              if e.Sends? && e.side == side && p.At(side).ended.None? then [e.text] else []
  {
    OtherIsOther(side);
  }

  lemma FirstCloseStays(p: Pair, e: Event, side: Side)
    requires p.hub.ended == p.server.ended
    ensures Step(p, e).At(side).ended ==
            if p.At(side).ended.None? && e.Closes? then Some(e.reason) else p.At(side).ended
  {
    OtherIsOther(side);
    if e.Closes? { OtherIsOther(e.side); }
  }

  /** An end whose peer is not reading gets through what it drains while the pair is open, and nothing else. */
  lemma OnlyADrainReaches(p: Pair, e: Event, side: Side)
    requires Sound(p) && !p.At(side).drains
    ensures Reached(Step(p, e), side.Other()) ==
            if e == Drains(side) && p.At(side).ended.None? then |p.At(side).sent| else Reached(p, side.Other())
  {
    var to := side.Other();
    OtherIsOther(side);
    match e
    case Sends(from, text) =>
      if p.At(from).ended.None? {
        HoldingHeardTheSame(p, from, text);
        HoldingBalances(p, from, text);
        if p.At(from).drains {
          assert from == to;
          OpenFlushBalances(Held(p, from, text), from);
        }
      }
    case Closes(from, reason) =>
      OtherIsOther(from);
      if p.At(from).ended.None? { EndingBalances(p, from, reason); }
    case Drains(from) =>
      if p.At(from).ended.None? { OpenFlushBalances(p, from); } else { ClosedFlushBalances(p, from); }
    case Runs => RunningChangesNothingHeard(p, to);
  }

  /** What the events alone say of `side` and of what its peer hears, in the pair they lead to. */
  ghost predicate IsAsAsked(p: Pair, events: seq<Event>, side: Side) {
    && p.At(side).sent == TextsSent(events, side)
    && p.At(side).ended == FirstClose(events)
    && |TextsWritten(events, side, p.At(side).drains)| == Reached(p, side.Other())
    && TextsWritten(events, side, p.At(side).drains) <= TextsSent(events, side)
  }

  lemma StepIsAsAsked(p: Pair, events: seq<Event>, e: Event, side: Side)
    requires Sound(p) && IsAsAsked(p, events, side)
    ensures IsAsAsked(Step(p, e), events + [e], side)
  {
    var all, q := events + [e], Step(p, e);
    assert all[..|all| - 1] == events && all[|all| - 1] == e;
    SendsReachTheirQueue(p, e, side);
    FirstCloseStays(p, e, side);
    StepKeepsDrains(p, e);
    StepIsSound(p, e);
    if p.At(side).drains {
      assert HoldsNothing(q, side);
    } else {
      OnlyADrainReaches(p, e, side);
    }
  }

  lemma {:induction false} EveryRunIsAsAsked(hubDrains: bool, serverDrains: bool, events: seq<Event>, side: Side)
    ensures Sound(Play(Joined(hubDrains, serverDrains), events))
    ensures IsAsAsked(Play(Joined(hubDrains, serverDrains), events), events, side)
    decreases |events|
  {
    if events == [] {
      FreshPairIsSound(hubDrains, serverDrains);
      assert HeardInAll(Joined(hubDrains, serverDrains), side.Other()) == [];
    } else {
      var before, e := events[..|events| - 1], events[|events| - 1];
      var p := Play(Joined(hubDrains, serverDrains), before);
      EveryRunIsAsAsked(hubDrains, serverDrains, before, side);
      StepIsSound(p, e);
      StepIsAsAsked(p, before, e, side);
      assert before + [e] == events;
    }
  }

  lemma {:induction false} PlayKeepsDrains(p: Pair, events: seq<Event>)
    ensures Play(p, events).hub.drains == p.hub.drains && Play(p, events).server.drains == p.server.drains
  {
    if events != [] {
      PlayKeepsDrains(p, events[..|events| - 1]);
      StepKeepsDrains(Play(p, events[..|events| - 1]), events[|events| - 1]);
    }
  }

  lemma ReachedIsHeard(p: Pair, events: seq<Event>, side: Side)
    requires Conserved(p, side) && IsAsAsked(p, events, side.Other()) && IsAsAsked(p, events, side)
    ensures HeardInAll(p, side) ==
            Frames(TextsWritten(events, side.Other(), p.At(side.Other()).drains)) + Ending(FirstClose(events))
  {
    OtherIsOther(side);
    var n := Reached(p, side);
    assert TextsWritten(events, side.Other(), p.At(side.Other()).drains) == p.At(side.Other()).sent[..n];
  }

  /** As many microtasks as `n`, and nothing else. */
  function Idle(n: nat): seq<Event> {
    seq(n, i => Runs)
  }

  lemma {:induction false} IdlingIsHeard(p: Pair, n: nat, side: Side)
    requires n <= |p.tasks|
    ensures var q := Play(p, Idle(n)); q.tasks == p.tasks[n..] && HeardInAll(q, side) == HeardInAll(p, side)
  {
    if n > 0 {
      IdlingIsHeard(p, n - 1, side);
      assert Idle(n)[..n - 1] == Idle(n - 1) && |Idle(n)| == n;
      RunningChangesNothingHeard(Play(p, Idle(n - 1)), side);
    }
  }

  /**
   * Whatever is sent, closed and drained, with either end reading or not: once
   * the waiting microtasks have run, an end has heard exactly the texts the
   * other was asked to send before the first close, those it never drained left
   * out, each once and in order, and then that close's reason, if there was one.
   */
  lemma WhatWasAskedIsHeard(hubDrains: bool, serverDrains: bool, events: seq<Event>, side: Side)
    ensures var p := Play(Joined(hubDrains, serverDrains), events);
            var q := Play(p, Idle(|p.tasks|));
            var reading := if side.Hub? then serverDrains else hubDrains;
            && q.tasks == []
            && q.At(side).heard == Frames(TextsWritten(events, side.Other(), reading)) + Ending(FirstClose(events))
            && p.hub.ended == p.server.ended == FirstClose(events)
            && p.hub.sent == TextsSent(events, Hub) && p.server.sent == TextsSent(events, Server)
  {
    var p := Play(Joined(hubDrains, serverDrains), events);
    var q := Play(p, Idle(|p.tasks|));
    OtherIsOther(side);
    EveryRunIsAsAsked(hubDrains, serverDrains, events, Hub);
    EveryRunIsAsAsked(hubDrains, serverDrains, events, Server);
    PlayKeepsDrains(Joined(hubDrains, serverDrains), events);
    IdlingIsHeard(p, |p.tasks|, side);
    ReachedIsHeard(p, events, side);
    assert q.At(side).heard + [] == q.At(side).heard;
  }

  // ---------------------------------------------------- the sockets as they run

  /** The one queue both ends' events wait on. */
  class Microtasks {
    var tasks: seq<Task>

    constructor ()
      ensures tasks == []
    {
      tasks := [];
    }
  }

  class FakeMessageSocket {
    const side: Side
    const writesThrough: bool
    const loop: Microtasks
    var queued: seq<Text>
    var bufferedBytes: nat
    var sent: seq<Text>
    var ended: Option<Closure>
    var heard: seq<Heard>
    var peer: FakeMessageSocket?

    ghost function View(): End
      reads this
    {
      End(writesThrough, queued, bufferedBytes, sent, ended, heard)
    }

    constructor (side: Side, drains: bool, loop: Microtasks)
      ensures View() == NewEnd(drains) && this.side == side && this.loop == loop && peer == null
    {
      this.side, writesThrough, this.loop := side, drains, loop;
      queued, bufferedBytes, sent, ended, heard, peer := [], 0, [], None, [], null;
    }

    method Receive(text: Text)
      modifies loop
      ensures loop.tasks == old(loop.tasks) + if ended.Some? then [] else [Deliver(side, text)]
    {
      if ended.Some? { return; }
      loop.tasks := loop.tasks + [Deliver(side, text)];
    }

    method CloseFromPeer(reason: Closure)
      modifies this`ended, loop
      ensures ended == if old(ended).Some? then old(ended) else Some(reason)
      ensures loop.tasks == old(loop.tasks) + if old(ended).Some? then [] else [Notify(side, reason)]
    {
      if ended.Some? { return; }
      ended := Some(reason);
      loop.tasks := loop.tasks + [Notify(side, reason)];
    }

    /** Writes the queue out, in order. */
    method Flush()
      requires peer != null && peer.loop == loop && peer.side == side.Other()
      modifies this`queued, this`bufferedBytes, loop
      ensures queued == [] && bufferedBytes == 0
      ensures loop.tasks == old(loop.tasks) + if peer.ended.Some? then [] else Deliveries(side.Other(), old(queued))
    {
      var writing := queued;
      queued, bufferedBytes := [], 0;
      for i := 0 to |writing|
        invariant peer == old(peer) && peer.ended == old(peer.ended)
        invariant loop.tasks == old(loop.tasks) + if peer.ended.Some? then [] else Deliveries(side.Other(), writing[..i])
        invariant queued == [] && bufferedBytes == 0
      {
        peer.Receive(writing[i]);
        assert Deliveries(side.Other(), writing[..i + 1]) == Deliveries(side.Other(), writing[..i]) + [Deliver(side.Other(), writing[i])];
      }
      assert writing[..|writing|] == writing;
    }
  }

  class SocketPair {
    const hubEnd: FakeMessageSocket
    const serverEnd: FakeMessageSocket
    const loop: Microtasks

    ghost predicate Valid()
      reads hubEnd, serverEnd
    {
      && hubEnd != serverEnd && hubEnd.peer == serverEnd && serverEnd.peer == hubEnd
      && hubEnd.loop == loop && serverEnd.loop == loop
      && hubEnd.side == Hub && serverEnd.side == Server
    }

    ghost function View(): Pair
      reads hubEnd, serverEnd, loop
    {
      Pair(hubEnd.View(), serverEnd.View(), loop.tasks)
    }

    /** Both ends made, and each connected to the other. */
    constructor (hubDrains: bool, serverDrains: bool)
      ensures Valid() && View() == Joined(hubDrains, serverDrains)
    {
      var tasks := new Microtasks();
      var hub := new FakeMessageSocket(Hub, hubDrains, tasks);
      var server := new FakeMessageSocket(Server, serverDrains, tasks);
      loop, hubEnd, serverEnd := tasks, hub, server;
      new;
      hub.peer := server;
      server.peer := hub;
    }

    function SocketAt(side: Side): FakeMessageSocket {
      if side.Hub? then hubEnd else serverEnd
    }

    method Send(side: Side, text: Text)
      requires Valid()
      modifies SocketAt(side), loop
      ensures Valid() && View() == Step(old(View()), Sends(side, text))
      ensures var s := SocketAt(side);
              && s.ended == old(s.ended) && s.heard == old(s.heard)
              && s.sent == old(s.sent) + (if s.ended.Some? then [] else [text])
              && (s.ended.Some? ==> unchanged(s) && unchanged(loop))
              && (s.ended.None? && !s.writesThrough ==>
                    s.queued == old(s.queued) + [text] && s.bufferedBytes == old(s.bufferedBytes) + Utf8Size(text) && unchanged(loop))
              && (s.ended.None? && s.writesThrough ==> s.queued == [] && s.bufferedBytes == 0)
    {
      var socket := SocketAt(side);
      if socket.ended.Some? { return; }
      socket.sent := socket.sent + [text];
      socket.queued := socket.queued + [text];
      socket.bufferedBytes := socket.bufferedBytes + Utf8Size(text);
      if socket.writesThrough { socket.Flush(); }
    }

    method Close(side: Side, reason: Closure)
      requires Valid()
      modifies hubEnd`ended, serverEnd`ended, loop
      ensures Valid() && View() == Step(old(View()), Closes(side, reason))
      ensures old(SocketAt(side).ended).Some? ==> unchanged(hubEnd) && unchanged(serverEnd) && loop.tasks == old(loop.tasks)
      ensures old(SocketAt(side).ended).None? ==>
                && SocketAt(side).ended == Some(reason)
                && SocketAt(side.Other()).ended.Some?
                && (old(SocketAt(side.Other()).ended).None? ==>
                      && SocketAt(side.Other()).ended == Some(reason)
                      && loop.tasks == old(loop.tasks) + [Notify(side, reason), Notify(side.Other(), reason)])
    {
      var socket := SocketAt(side);
      var alreadyEnded := socket.ended.Some?;
      socket.CloseFromPeer(reason);
      if !alreadyEnded { SocketAt(side.Other()).CloseFromPeer(reason); }
    }

    method Drain(side: Side)
      requires Valid()
      modifies SocketAt(side), loop
      ensures Valid() && View() == Step(old(View()), Drains(side))
      ensures var s := SocketAt(side);
              && s.queued == [] && s.bufferedBytes == 0
              && s.sent == old(s.sent) && s.ended == old(s.ended) && s.heard == old(s.heard)
    {
      SocketAt(side).Flush();
    }

    /** The next microtask: what its listeners are told. */
    method RunMicrotask()
      requires Valid()
      modifies hubEnd`heard, serverEnd`heard, loop
      ensures Valid() && View() == Step(old(View()), Runs)
      ensures old(loop.tasks) == [] ==> unchanged(hubEnd) && unchanged(serverEnd) && unchanged(loop)
      ensures old(loop.tasks) != [] ==>
                var task := old(loop.tasks[0]);
                && loop.tasks == old(loop.tasks[1..])
                && SocketAt(task.to).heard == old(SocketAt(task.to).heard) + [AsHeard(task)]
                && SocketAt(task.to.Other()).heard == old(SocketAt(task.to.Other()).heard)
    {
      if loop.tasks == [] { return; }
      var task := loop.tasks[0];
      loop.tasks := loop.tasks[1..];
      var socket := SocketAt(task.to);
      socket.heard := socket.heard + [AsHeard(task)];
    }
  }
}
