/** Runs of a state machine, and induction over them. */
module Runs {

  ghost predicate Hop<S(!new)>(move: (S, S) -> bool, trace: seq<S>, i: nat)
    requires i + 1 < |trace|
  {
    move(trace[i], trace[i + 1])
  }

  /** The states of a run, one move apart. */
  ghost predicate IsRun<S(!new)>(move: (S, S) -> bool, trace: seq<S>) {
    trace != [] && forall i :: 0 <= i < |trace| - 1 ==> Hop(move, trace, i)
  }

  lemma LongerRun<S(!new)>(move: (S, S) -> bool, trace: seq<S>, t: S)
    requires IsRun(move, trace) && move(trace[|trace| - 1], t)
    ensures IsRun(move, trace + [t])
  {
    var longer := trace + [t];
    forall i | 0 <= i < |longer| - 1 ensures Hop(move, longer, i) {
      if i < |trace| - 1 { assert Hop(move, trace, i); }
    }
  }

  lemma ShorterRun<S(!new)>(move: (S, S) -> bool, trace: seq<S>)
    requires IsRun(move, trace) && |trace| > 1
    ensures IsRun(move, trace[..|trace| - 1]) && move(trace[|trace| - 2], trace[|trace| - 1])
  {
    var front := trace[..|trace| - 1];
    assert Hop(move, trace, |trace| - 2);
    forall i | 0 <= i < |front| - 1 ensures Hop(move, front, i) {
      assert Hop(move, trace, i);
    }
  }

  lemma LaterRun<S(!new)>(move: (S, S) -> bool, trace: seq<S>, from: nat)
    requires IsRun(move, trace) && from < |trace|
    ensures IsRun(move, trace[from..])
  {
    var rest := trace[from..];
    forall i | 0 <= i < |rest| - 1 ensures Hop(move, rest, i) {
      assert Hop(move, trace, from + i);
    }
  }

  /** Every move takes `p` one step further. */
  ghost predicate Kept<S(!new)>(move: (S, S) -> bool, p: (nat, S) -> bool) {
    forall i: nat, a, b :: move(a, b) && p(i, a) ==> p(i + 1, b)
  }

  /** What holds at first and is kept by every move holds all along. */
  lemma {:induction false} HoldsAllAlong<S(!new)>(move: (S, S) -> bool, trace: seq<S>, p: (nat, S) -> bool, n: nat)
    requires IsRun(move, trace) && n < |trace| && p(0, trace[0]) && Kept(move, p)
    ensures p(n, trace[n])
  {
    if n > 0 {
      HoldsAllAlong(move, trace, p, n - 1);
      assert Hop(move, trace, n - 1);
    }
  }

  /** What holds of zero and of the successor of whatever it holds of, holds of every number. */
  lemma {:induction false} HoldsOfAll(p: nat -> bool, n: nat)
    requires p(0) && forall i: nat :: p(i) ==> p(i + 1)
    ensures p(n)
  {
    if n > 0 { HoldsOfAll(p, n - 1); }
  }
}
