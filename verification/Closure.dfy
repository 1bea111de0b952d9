/**
 * The tree holds every snapshot the root reaches in the lockfile, and no other.
 */
module Closure {
  import opened Lockfiles
  import opened Layouts
  import opened LayoutInvariants
  import opened VisitInvariants
  import opened Derivations
  import opened Resolution
  import opened Runs

  ghost function Leads(lock: Lockfile): (Key, Key) -> bool {
    (k, next) => IsEdgeOf(lock, k, next)
  }

  /** A way down the lockfile: each key is an edge of the one before it. */
  ghost predicate IsPath(lock: Lockfile, path: seq<Key>) {
    IsRun(Leads(lock), path)
  }

  /** Through dependencies and optionalDependencies, optional peers skipped. */
  ghost predicate Reachable(lock: Lockfile, roots: set<Key>, k: Key) {
    exists path :: IsPath(lock, path) && path[0] in roots && path[|path| - 1] == k
  }

  lemma RootIsReachable(lock: Lockfile, roots: set<Key>, k: Key)
    requires k in roots
    ensures Reachable(lock, roots, k)
  {
    assert IsPath(lock, [k]) && [k][0] in roots;
  }

  lemma OneFurther(lock: Lockfile, roots: set<Key>, k: Key, next: Key)
    requires Reachable(lock, roots, k) && IsEdgeOf(lock, k, next)
    ensures Reachable(lock, roots, next)
  {
    var path :| IsPath(lock, path) && path[0] in roots && path[|path| - 1] == k;
    LongerRun(Leads(lock), path, next);
    assert (path + [next])[0] in roots && (path + [next])[|path + [next]| - 1] == next;
  }

  /** No worklist turn invents a key: whatever it holds, the root reaches. */
  ghost predicate AllReachable(lock: Lockfile, roots: set<Key>, s: Layout) {
    forall k :: k in KeysIn(s.tree) ==> Reachable(lock, roots, k)
  }

  lemma VisitReachesNoFurther(lock: Lockfile, roots: set<Key>, s: Layout, t: Layout)
    requires s.queue != [] && QueueOk(s) && Turn(lock, s, t) && AllReachable(lock, roots, s)
    ensures AllReachable(lock, roots, t)
  {
    var item := s.queue[0];
    assert item in Waiting(s) && item in Contexts(s.tree);
    assert item.key in KeysIn(s.tree);
    forall k | k in KeysIn(t.tree) ensures Reachable(lock, roots, k) {
      var i :| i in Contexts(t.tree) && i.key == k;
      if i in Contexts(s.tree) {
        assert k in KeysIn(s.tree);
      } else {
        OneFurther(lock, roots, item.key, k);
      }
    }
  }

  ghost function ReachedOnly(lock: Lockfile, roots: set<Key>): (nat, Layout) -> bool {
    (i: nat, s: Layout) => AllReachable(lock, roots, s)
  }

  lemma ReachingIsKept(lock: Lockfile, roots: set<Key>)
    ensures Kept(Turns(lock), ReachedOnly(lock, roots))
  {
    var p := ReachedOnly(lock, roots);
    forall i: nat, a, b | Turns(lock)(a, b) && p(i, a) ensures p(i + 1, b) {
      if a.queue != [] { VisitReachesNoFurther(lock, roots, a, b); }
    }
  }

  lemma KeepsKeys(a: Tree, b: Tree)
    requires Keeps(a, b)
    ensures KeysIn(a) <= KeysIn(b)
  {
    forall k | k in KeysIn(a) ensures k in KeysIn(b) {
      var i :| i in Contexts(a) && i.key == k;
      ContextsOf(a, i.at, k);
      ContextsOf(b, i.at, k);
      assert Item(i.at, k) in Contexts(b);
    }
  }

  /** Once nothing is waiting, an edge of a held key leads to a held key. */
  lemma HeldIsClosed(lock: Lockfile, s: Layout, k: Key, next: Key)
    requires Inv(lock, s) && Visited(s) == Contexts(s.tree)
    requires k in KeysIn(s.tree) && IsEdgeOf(lock, k, next)
    ensures next in KeysIn(s.tree)
  {
    var i :| i in Contexts(s.tree) && i.key == k;
    var e: Edge :| Follows(lock, k, e) && e.Target() == next;
    assert i in Visited(s) && Followed(lock, s.tree, i);
    ContextsOf(s.tree, i.at, k);
    assert NodeOk(lock, s.tree, i.at);
    assert Held(PackageOf(lock, PackageAt(s.tree, i.at)).value, s.tree, i.at, s.tree[i.at].resolved.value, e);
    var l :| Item(l, next) in Contexts(s.tree);
    assert Item(l, next).key == next;
  }

  ghost function HeldIn(tree: Tree): (nat, Key) -> bool {
    (i: nat, k: Key) => k in KeysIn(tree)
  }

  lemma HoldingIsKept(lock: Lockfile, s: Layout)
    requires Inv(lock, s) && Visited(s) == Contexts(s.tree)
    ensures Kept(Leads(lock), HeldIn(s.tree))
  {
    forall i: nat, k, next | Leads(lock)(k, next) && HeldIn(s.tree)(i, k) ensures HeldIn(s.tree)(i + 1, next) {
      HeldIsClosed(lock, s, k, next);
    }
  }

  lemma PathIsHeld(lock: Lockfile, s: Layout, path: seq<Key>)
    requires Kept(Leads(lock), HeldIn(s.tree)) && IsPath(lock, path) && path[0] in KeysIn(s.tree)
    ensures path[|path| - 1] in KeysIn(s.tree)
  {
    HoldsAllAlong(Leads(lock), path, HeldIn(s.tree), |path| - 1);
  }

  lemma HoldsOnlyWhatIsReached(lock: Lockfile, m: Manifest, importers: seq<string>, turns: nat, r: Rooted, s: Layout)
    requires Derives(lock, m, importers, turns, r, s)
    ensures AllReachable(lock, RootKeys(lock, m, importers), s)
  {
    var roots := RootKeys(lock, m, importers);
    BeginIsOk(lock, m, importers, r);
    forall k | k in KeysIn(r.layout.tree) ensures Reachable(lock, roots, k) {
      RootIsReachable(lock, roots, k);
    }
    var trace := AfterIsRun(lock, r.layout, turns, s);
    ReachingIsKept(lock, roots);
    HoldsAllAlong(Turns(lock), trace, ReachedOnly(lock, roots), turns);
  }

  lemma HoldsAllThatIsReached(lock: Lockfile, m: Manifest, importers: seq<string>, turns: nat, r: Rooted, s: Layout, k: Key)
    requires Derives(lock, m, importers, turns, r, s) && Reachable(lock, RootKeys(lock, m, importers), k)
    ensures k in KeysIn(s.tree)
  {
    BeginIsOk(lock, m, importers, r);
    DerivedIsComplete(lock, m, importers, turns, r, s);
    KeepsKeys(r.layout.tree, s.tree);
    HoldingIsKept(lock, s);
    var path :| IsPath(lock, path) && path[0] in RootKeys(lock, m, importers) && path[|path| - 1] == k;
    PathIsHeld(lock, s, path);
  }

  /**
   * On success the keys held in the tree are exactly those the root reaches in
   * the lockfile: nothing missing, nothing invented.
   */
  lemma HoldsExactlyWhatIsReached(lock: Lockfile, m: Manifest, importers: seq<string>, turns: nat, r: Rooted, s: Layout, k: Key)
    requires Derives(lock, m, importers, turns, r, s)
    ensures k in KeysIn(s.tree) <==> Reachable(lock, RootKeys(lock, m, importers), k)
  {
    HoldsOnlyWhatIsReached(lock, m, importers, turns, r, s);
    if Reachable(lock, RootKeys(lock, m, importers), k) {
      HoldsAllThatIsReached(lock, m, importers, turns, r, s, k);
    }
  }
}
