/**
 * The drain: waiting, on a clock and with a bound, for every terminal to reach
 * a boundary, be stopped there and go.
 *
 * Everything outside the drain is a choice this model leaves open at every
 * await: how long it took, which processes exited, which sessions are mid-turn
 * now, and whether the operator asked to stop waiting. What is taken as given
 * is that the clock does not go back, that a timer does not fire early, and
 * that no terminal is added once the drain has begun.
 */
module Drains {
  import opened Finite

  type Id = string

  /** One call of `sleep`: what its `finish` closes over. */
  class Wait {
    var done: bool
    var cancelled: bool
    const begun: int
    const deadline: int
    /** The terminals whose exit would end it. */
    const until: set<Id>
    /** Whether the drain had been told to stop waiting when this wait began. */
    const afterTheSignal: bool

    constructor (begun: int, deadline: int, until: set<Id>, afterTheSignal: bool)
      ensures !done && !cancelled && this.begun == begun && this.deadline == deadline
      ensures this.until == until && this.afterTheSignal == afterTheSignal
    {
      done, cancelled := false, false;
      this.begun, this.deadline, this.until, this.afterTheSignal := begun, deadline, until, afterTheSignal;
    }
  }

  /** Some natural number, and no saying which. */
  method SomeNumber() returns (n: nat)
  {
    var any: int := *;
    n := if any < 0 then 0 else any;
  }

  datatype End = Drained | Expired | Abandoned

  datatype Report = Report(end: End, drained: nat, killed: nat, elapsedMs: int)

  class Drain {
    const terminals: seq<Id>
    const storeOf: map<Id, string>
    const budgetMs: int
    const pollMs: int

    // The world as the drain can read it.
    var clock: int
    var exited: set<Id>
    var working: set<Id>
    /** Every stop that was accepted, in order. */
    var stops: seq<Id>
    /** Every store that was asked for a fresh reading, in order. */
    var observed: seq<string>

    // The drain's own state.
    var abandoned: bool
    var wake: Wait?
    var settled: set<Id>
    var signalled: set<Id>

    /** Every wait that has begun. */
    var waits: set<Wait>
    /** What was mid-turn when the last pass went by. */
    ghost var midTurn: set<Id>

    ghost function Ids(): set<Id> {
      set t | t in terminals
    }

    /** At most one wait is unfinished, and it is the one `wake` would end. */
    ghost predicate Waiting()
      reads this, waits
    {
      && (wake != null ==> wake in waits && !wake.done)
      && forall w :: w in waits && !w.done ==> w == wake
    }

    ghost predicate Valid()
      reads this, waits
    {
      && Waiting()
      && Distinct(terminals) && (forall t :: t in terminals ==> t in storeOf)
      && pollMs > 0
      && settled <= exited && exited <= Ids() && signalled <= Ids()
      && Distinct(stops) && (forall t :: t in stops <==> t in signalled)
    }

    constructor (terminals: seq<Id>, storeOf: map<Id, string>, budgetMs: int, pollMs: int, clock: int, exited: set<Id>, working: set<Id>)
      requires Distinct(terminals) && (forall t :: t in terminals ==> t in storeOf) && pollMs > 0
      requires forall t :: t in exited ==> t in terminals
      ensures Valid() && wake == null && !abandoned && settled == {} && signalled == {} && waits == {}
      ensures this.terminals == terminals && this.budgetMs == budgetMs && this.clock == clock && this.exited == exited
    {
      this.terminals, this.storeOf, this.budgetMs, this.pollMs := terminals, storeOf, budgetMs, pollMs;
      this.clock, this.exited, this.working, stops := clock, exited, working, [];
      abandoned, wake, settled, signalled := false, null, {}, {};
      waits, observed, midTurn := {}, [], {};
    }

    /** Ends wait `w` if it has not ended, and does nothing at all if it has. */
    method Finish(w: Wait)
      requires Valid() && w in waits
      modifies this`wake, w
      ensures Valid() && w.done
      ensures old(w.done) ==> unchanged(this) && unchanged(w)
      ensures !old(w.done) ==> wake == null && w.cancelled
    {
      if w.done { return; }
      w.done := true;
      w.cancelled := true;
      wake := null;
    }

    /** A second signal: the current wait, if there is one, is over. */
    method StopWaiting()
      requires Valid()
      modifies this`abandoned, this`wake, waits
      ensures Valid() && abandoned && wake == null
      ensures forall w :: w in waits ==> w.done
      ensures unchanged(`waits) && unchanged(`clock) && unchanged(`exited)
    {
      abandoned := true;
      if wake != null { Finish(wake); }
    }

    /** A terminal that wait `w` watched is gone, and the promise says so: now, or long after the wait ended. */
    method Hear(w: Wait)
      requires Valid() && w in waits && w.until * exited != {}
      modifies this`wake, w
      ensures Valid() && w.done
      ensures old(w.done) ==> unchanged(this) && unchanged(w)
      ensures !old(w.done) ==> wake == null
    {
      Finish(w);
    }

    /** Anything that may happen while the drain is not running. */
    method Meanwhile()
      requires Valid()
      modifies this`clock, this`exited, this`working, this`abandoned, this`wake, waits
      ensures Valid() && unchanged(`waits)
      ensures clock >= old(clock) && old(exited) <= exited && (old(abandoned) ==> abandoned)
      ensures forall w :: w in waits && old(w.done) ==> w.done
      ensures forall w :: w in waits && !old(w.done) && w.done ==> abandoned || w.until * exited != {}
      ensures old(wake) == null ==> wake == null
      ensures abandoned && !old(abandoned) ==> forall w :: w in waits ==> w.done
    {
      var passed := SomeNumber();
      clock := clock + passed;
      var gone: set<Id> := *;
      exited := exited + set t | t in gone && t in terminals;
      var midTurn: set<Id> := *;
      working := midTurn;
      var hearings := SomeNumber();
      while hearings > 0
        invariant Valid() && unchanged(`waits) && unchanged(`abandoned)
        invariant clock >= old(clock) && old(exited) <= exited
        invariant forall w :: w in waits && old(w.done) ==> w.done
        invariant forall w :: w in waits && !old(w.done) && w.done ==> w.until * exited != {}
        invariant old(wake) == null ==> wake == null
      {
        hearings := hearings - 1;
        var w: Wait? := *;
        if w != null && w in waits && w.until * exited != {} { Hear(w); }
      }
      var signalAgain: bool := *;
      if signalAgain { StopWaiting(); }
    }

    /** Waits `ms`, or less: until a watched terminal is gone or the drain is told to stop. */
    method Sleep(ms: int, until: set<Id>)
      requires Valid() && wake == null && ms > 0
      modifies this`clock, this`exited, this`working, this`abandoned, this`wake, this`waits, waits
      ensures Valid() && wake == null
      ensures clock >= old(clock) && old(exited) <= exited
      ensures abandoned || clock >= old(clock) + ms || until * exited != {}
      ensures fresh(waits - old(waits)) && old(waits) <= waits
      ensures forall w :: w in waits && w !in old(waits) ==>
                && w.begun == old(clock) && w.deadline == old(clock) + ms && w.until == until
                && w.afterTheSignal == old(abandoned)
      ensures |waits - old(waits)| == 1
    {
      var w := new Wait(clock, clock + ms, until, abandoned);
      assert (waits + {w}) - waits == {w};
      waits := waits + {w};
      var atOnce: bool := *;
      if atOnce {
        // The timer's time had come before there was anything to cancel.
        var late := SomeNumber();
        clock := clock + ms + late;
        wake := w;
        Finish(w);
        return;
      }
      wake := w;
      var events := SomeNumber();
      while events > 0 && !w.done
        invariant Valid() && w in waits && waits == old(waits) + {w}
        invariant clock >= old(clock) && old(exited) <= exited
        invariant w.done ==> wake == null && (abandoned || until * exited != {})
        invariant !w.done ==> wake == w
      {
        events := events - 1;
        Meanwhile();
      }
      if !w.done {
        // Nothing else ended it, so its timer does, no earlier than its deadline.
        var late := SomeNumber();
        clock := (if clock >= w.deadline then clock else w.deadline) + late;
        Finish(w);
      }
    }

    /** The distinct stores still holding a terminal that is neither settled nor gone. */
    method StoresStillHolding() returns (stores: seq<string>)
      requires Valid()
      ensures Distinct(stores)
      ensures forall store :: store in stores <==>
                exists t :: t in terminals && t !in settled && t !in exited && storeOf[t] == store
    {
      stores := [];
      for i := 0 to |terminals|
        invariant Distinct(stores)
        invariant forall store :: store in stores <==>
                    exists j :: 0 <= j < i && terminals[j] !in settled && terminals[j] !in exited && storeOf[terminals[j]] == store
      {
        var t := terminals[i];
        if t !in settled && t !in exited && storeOf[t] !in stores {
          stores := stores + [storeOf[t]];
        }
      }
    }

    /** A terminal the drain is not done with, in a store it should therefore ask about. */
    ghost predicate StillHolds(store: string)
      reads this
    {
      exists t :: t in terminals && t in storeOf && t !in settled && t !in exited && storeOf[t] == store
    }

    /** Each store that still holds something re-read in turn, once; one that cannot be read leaves its sessions as they were. */
    method ObserveAll()
      requires Valid() && wake == null
      modifies this`clock, this`exited, this`working, this`abandoned, this`wake, this`observed, waits
      ensures Valid() && wake == null && unchanged(`waits)
      ensures clock >= old(clock) && old(exited) <= exited && (old(abandoned) ==> abandoned)
      ensures old(observed) <= observed && Distinct(observed[|old(observed)|..])
      ensures forall store :: store in observed[|old(observed)|..] <==> old(StillHolds(store))
    {
      var stores := StoresStillHolding();
      assert forall store :: store in stores <==> StillHolds(store);
      for i := 0 to |stores|
        invariant Valid() && wake == null && unchanged(`waits)
        invariant clock >= old(clock) && old(exited) <= exited && (old(abandoned) ==> abandoned)
        invariant observed == old(observed) + stores[..i]
      {
        observed := observed + [stores[i]];
        Meanwhile();
      }
      assert observed[|old(observed)|..] == stores;
    }

    /** The manual stop rule: refused mid-turn, and otherwise a hangup the process takes its own time over. */
    method Stop(t: Id) returns (ok: bool)
      requires Valid() && t in terminals && t !in exited && t !in signalled
      modifies this`stops, this`signalled, this`exited
      ensures Valid() && ok == (t !in working)
      ensures signalled == old(signalled) + if ok then {t} else {}
      ensures stops == old(stops) + if ok then [t] else []
      ensures old(exited) <= exited <= old(exited) + {t}
    {
      ok := t !in working;
      if !ok { return; }
      stops := stops + [t];
      signalled := signalled + {t};
      var goneAlready: bool := *;
      if goneAlready { exited := exited + {t}; }
    }

    /** One pass: what is gone is settled, and what is at a boundary and not yet stopped is stopped. */
    method Pass()
      requires Valid()
      modifies this`stops, this`signalled, this`exited, this`settled, this`midTurn
      ensures Valid() && old(exited) <= exited && midTurn == working
      ensures settled == old(exited)
      ensures signalled == old(signalled) + set t | t in terminals && t !in old(exited) && t !in working
    {
      midTurn := working;
      for i := 0 to |terminals|
        invariant Valid() && old(exited) <= exited && midTurn == working
        invariant old(settled) <= settled <= old(exited)
        invariant forall j :: i <= j < |terminals| && terminals[j] in exited ==> terminals[j] in old(exited)
        invariant forall j :: 0 <= j < i && terminals[j] in old(exited) ==> terminals[j] in settled
        invariant forall j :: 0 <= j < i && terminals[j] !in old(exited) && terminals[j] !in working ==> terminals[j] in signalled
        invariant old(signalled) <= signalled
        invariant forall t :: t in signalled ==> t in old(signalled) || (t in terminals && t !in old(exited) && t !in working)
      {
        var t := terminals[i];
        if t in settled { continue; }
        if t in exited {
          settled := settled + {t};
          continue;
        }
        if t in signalled { continue; }
        var ok := Stop(t);
      }
    }

    /** What is not settled yet, as the report counts it. */
    function Outstanding(): (left: set<Id>)
      reads this
      ensures left == Ids() - settled
    {
      set t | t in terminals && t !in settled
    }

    ghost function Remaining(startedAt: int): nat
      reads this`clock
    {
      if clock - startedAt < budgetMs then budgetMs - (clock - startedAt) else 0
    }

    /** What is neither gone nor stopped was mid-turn when the last pass went by. */
    ghost predicate LeftMidTurn()
      reads this
    {
      forall t :: t in terminals ==> t in settled || t in signalled || t in midTurn
    }

    /** The wait is for one poll, or for what is left of the budget if that is less. */
    ghost predicate Polls(w: Wait, startedAt: int) {
      w.deadline == if w.begun + pollMs < startedAt + budgetMs then w.begun + pollMs else startedAt + budgetMs
    }

    /** Once round the loop: `over` says how it ended, if it did. */
    method Round(startedAt: int) returns (over: bool, end: End)
      requires Valid() && wake == null && clock >= startedAt
      modifies this`clock, this`exited, this`working, this`abandoned, this`wake, this`waits, waits,
               this`stops, this`signalled, this`settled, this`observed, this`midTurn
      ensures Valid() && wake == null && clock >= old(clock) && old(exited) <= exited
      ensures old(observed) <= observed && forall store :: store in observed[|old(observed)|..] <==> old(StillHolds(store))
      ensures old(exited) <= settled && LeftMidTurn() && old(signalled) <= signalled && (signalled - old(signalled)) !! midTurn
      ensures fresh(waits - old(waits)) && old(waits) <= waits && (budgetMs <= 0 ==> waits == old(waits))
      ensures !over ==> |waits - old(waits)| == 1
      ensures forall w :: w in waits && w !in old(waits) ==>
                Polls(w, startedAt) && w.until == signalled - settled && !w.afterTheSignal
      ensures !over ==> Remaining(startedAt) < old(Remaining(startedAt)) || old(exited) < exited
      ensures over ==>
                && (end.Drained? <==> Outstanding() == {})
                && (end.Abandoned? <==> Outstanding() != {} && abandoned)
                && (end.Expired? ==> clock - startedAt >= budgetMs)
    {
      ObserveAll();
      Pass();
      if Outstanding() == {} { return true, Drained; }
      if abandoned { return true, Abandoned; }
      var left := budgetMs - (clock - startedAt);
      if left <= 0 { return true, Expired; }
      ghost var was := Outstanding();
      Sleep(if pollMs < left then pollMs else left, set t | t in terminals && t in signalled && t !in settled);
      assert Outstanding() == was;
      if abandoned { return true, Abandoned; }
      return false, Drained;
    }

    /**
     * The drain. It ends, whatever the world does; it ends `Drained` exactly
     * when nothing is left to kill, and otherwise says whether it was told to
     * stop or ran out of time.
     */
    method Run() returns (report: Report)
      requires Valid() && wake == null && settled == {} && signalled == {}
      modifies this, waits
      ensures Valid() && wake == null
      ensures report.drained == |settled| && report.killed == |Ids() - settled|
      ensures report.end.Drained? <==> report.killed == 0
      ensures report.end.Abandoned? <==> report.killed > 0 && abandoned
      ensures report.end.Expired? ==> report.elapsedMs >= budgetMs
      ensures report.elapsedMs == clock - old(clock) && report.elapsedMs >= 0
      ensures budgetMs <= 0 ==> waits == old(waits)
      ensures forall w :: w in waits && w !in old(waits) ==> Polls(w, old(clock)) && !w.afterTheSignal
      ensures old(exited) <= settled && LeftMidTurn()
    {
      var startedAt := clock;
      var over, end := false, Drained;
      while !over
        invariant Valid() && wake == null && clock >= startedAt
        invariant fresh(waits - old(waits)) && (budgetMs <= 0 ==> waits == old(waits))
        invariant forall w :: w in waits && w !in old(waits) ==> Polls(w, startedAt) && !w.afterTheSignal
        invariant old(exited) <= exited && (over ==> old(exited) <= settled && LeftMidTurn())
        invariant over ==>
                    && (end.Drained? <==> Outstanding() == {})
                    && (end.Abandoned? <==> Outstanding() != {} && abandoned)
                    && (end.Expired? ==> clock - startedAt >= budgetMs)
        decreases !over, Remaining(startedAt), Ids() - exited
      {
        over, end := Round(startedAt);
      }
      report := Report(end, |settled|, |Outstanding()|, clock - startedAt);
    }
  }
}
