/**
 * The worklist ends whenever the packages that depend on one another in a
 * circle, peers included, are of names asked for at one version: those only
 * ever sit at the top. No location is deeper than a chain of packages is long,
 * and below the top such a chain never meets a circle, so there are finitely
 * many pairs to visit, and every turn visits one that was never visited before.
 */
module Termination {
  import opened Outcomes
  import opened Finite
  import opened Lockfiles
  import opened Layouts
  import opened LayoutInvariants
  import opened VisitInvariants
  import opened Derivations
  import opened Resolution
  import opened Runs
  import opened Tops
  import opened Closure

  // --------------------------------------------------------- package chains

  /** Some snapshot of `p` follows an edge to `q`. */
  ghost predicate DependsOn(lock: Lockfile, p: Package, q: Package) {
    exists k, next :: Spells(k, p) && IsEdgeOf(lock, k, next) && Spells(next, q)
  }

  ghost function Depends(lock: Lockfile): (Package, Package) -> bool {
    (p, q) => DependsOn(lock, p, q)
  }

  /** Packages each of which depends on the next. */
  ghost predicate IsChain(lock: Lockfile, chain: seq<Package>) {
    IsRun(Depends(lock), chain)
  }

  /** No package depends on itself, however indirectly. */
  ghost predicate Acyclic(lock: Lockfile) {
    forall chain :: IsChain(lock, chain) && |chain| > 1 ==> chain[0] != chain[|chain| - 1]
  }

  lemma PartIsChain(lock: Lockfile, chain: seq<Package>, i: nat, j: nat)
    requires IsChain(lock, chain) && i < j < |chain|
    ensures IsChain(lock, chain[i..j + 1])
  {
    var part := chain[i..j + 1];
    forall n | 0 <= n < |part| - 1 ensures Hop(Depends(lock), part, n) {
      assert Hop(Depends(lock), chain, i + n);
    }
  }

  /** `p` depends on itself, however indirectly. */
  ghost predicate OnACircle(lock: Lockfile, p: Package) {
    exists chain :: IsChain(lock, chain) && |chain| > 1 && chain[0] == p && chain[|chain| - 1] == p
  }

  /** Whatever `keys` ask for under `name` is one version. */
  ghost predicate OneVersion(keys: set<Key>, name: string) {
    forall k, k' ::
      (k in keys && k' in keys && k.name == name && k'.name == name && WithoutPeers(k.value).Some? && WithoutPeers(k'.value).Some?) ==>
        WithoutPeers(k.value) == WithoutPeers(k'.value)
  }

  /** Those of the packages `keys` ask for that depend on themselves have names asked for at one version. */
  ghost predicate CirclesAtOneVersion(lock: Lockfile, keys: set<Key>) {
    forall p :: p in AllPackages(keys) && OnACircle(lock, p) ==> OneVersion(keys, p.name)
  }

  lemma AcyclicHasNoCircles(lock: Lockfile, keys: set<Key>)
    requires Acyclic(lock)
    ensures CirclesAtOneVersion(lock, keys)
  {
  }

  /** Everything after the first package of `chain` has a name asked for at two versions. */
  ghost predicate ManyAfterTheFirst(keys: set<Key>, chain: seq<Package>) {
    forall i :: 0 < i < |chain| ==> !OneVersion(keys, chain[i].name)
  }

  lemma PartIsACircle(lock: Lockfile, chain: seq<Package>, i: nat, j: nat)
    requires IsChain(lock, chain) && i < j < |chain| && chain[i] == chain[j]
    ensures OnACircle(lock, chain[j])
  {
    var part := chain[i..j + 1];
    PartIsChain(lock, chain, i, j);
    assert part[0] == chain[j] && part[|part| - 1] == chain[j];
  }

  lemma SuchChainsAreDistinct(lock: Lockfile, keys: set<Key>, chain: seq<Package>)
    requires CirclesAtOneVersion(lock, keys) && IsChain(lock, chain) && ManyAfterTheFirst(keys, chain)
    requires forall q :: q in chain ==> q in AllPackages(keys)
    ensures Distinct(chain)
  {
    forall i, j | 0 <= i < j < |chain| ensures chain[i] != chain[j] {
      if chain[i] == chain[j] { PartIsACircle(lock, chain, i, j); }
    }
  }

  // ----------------------------------------------------- the finite universe

  ghost function EdgeKeys(lock: Lockfile): set<Key> {
    set spelled, e | spelled in lock.snapshots && e in Edges(lock.snapshots[spelled]) :: e.Target()
  }

  /** Every key a run can meet: what the root reaches in the lockfile. */
  ghost function ReachedKeys(lock: Lockfile, m: Manifest, importers: seq<string>): set<Key> {
    set k | k in RootKeys(lock, m, importers) + EdgeKeys(lock) && Reachable(lock, RootKeys(lock, m, importers), k)
  }

  lemma ReachedKeysAreClosed(lock: Lockfile, m: Manifest, importers: seq<string>)
    ensures RootKeys(lock, m, importers) <= ReachedKeys(lock, m, importers)
    ensures ClosedUnderEdges(lock, ReachedKeys(lock, m, importers))
  {
    var roots, keys := RootKeys(lock, m, importers), ReachedKeys(lock, m, importers);
    forall k | k in roots ensures k in keys { RootIsReachable(lock, roots, k); }
    forall k, next | k in keys && IsEdgeOf(lock, k, next) ensures next in keys {
      OneFurther(lock, roots, k, next);
    }
  }

  ghost function AllNames(keys: set<Key>): set<string> {
    set k | k in keys :: k.name
  }

  ghost function AllPackages(keys: set<Key>): set<Package> {
    set k | k in keys && WithoutPeers(k.value).Some? :: Package(k.name, WithoutPeers(k.value).value)
  }

  /** `chain` ends at `p` and draws on the packages `keys` spell. */
  ghost predicate ChainTo(lock: Lockfile, keys: set<Key>, chain: seq<Package>, p: Package) {
    && IsChain(lock, chain) && chain[|chain| - 1] == p
    && ManyAfterTheFirst(keys, chain)
    && forall q :: q in chain ==> q in AllPackages(keys)
  }

  ghost predicate AtTheEndOf(lock: Lockfile, keys: set<Key>, p: Package, depth: nat) {
    exists chain :: ChainTo(lock, keys, chain, p) && |chain| >= depth
  }

  ghost predicate Spelled(keys: set<Key>, l: Location) {
    forall n :: n in l ==> n in AllNames(keys)
  }

  /** Every location is spelled in known names, and no deeper than a chain of packages. */
  ghost predicate Confined(lock: Lockfile, keys: set<Key>, tree: Tree) {
    && KeysIn(tree) <= keys
    && forall l :: l in tree ==> AtTheEndOf(lock, keys, PackageAt(tree, l), |l|) && Spelled(keys, l)
  }

  lemma LongerChainTo(lock: Lockfile, keys: set<Key>, chain: seq<Package>, p: Package, q: Package)
    requires ChainTo(lock, keys, chain, p) && DependsOn(lock, p, q) && q in AllPackages(keys)
    requires !OneVersion(keys, q.name)
    ensures ChainTo(lock, keys, chain + [q], q)
  {
    LongerRun(Depends(lock), chain, q);
  }

  lemma ChainEndsThere(lock: Lockfile, keys: set<Key>, chain: seq<Package>, p: Package, depth: nat)
    requires ChainTo(lock, keys, chain, p) && |chain| >= depth
    ensures AtTheEndOf(lock, keys, p, depth)
  {
  }

  lemma OneDeeper(lock: Lockfile, keys: set<Key>, p: Package, depth: nat, q: Package, next: nat)
    requires AtTheEndOf(lock, keys, p, depth) && DependsOn(lock, p, q) && q in AllPackages(keys)
    requires !OneVersion(keys, q.name)
    requires next <= depth + 1
    ensures AtTheEndOf(lock, keys, q, next)
  {
    var chain :| ChainTo(lock, keys, chain, p) && |chain| >= depth;
    LongerChainTo(lock, keys, chain, p, q);
    ChainEndsThere(lock, keys, chain + [q], q, next);
  }

  lemma JustOne(lock: Lockfile, keys: set<Key>, p: Package)
    requires p in AllPackages(keys)
    ensures AtTheEndOf(lock, keys, p, 1)
  {
    assert ChainTo(lock, keys, [p], p);
  }

  /** A placed node's package and name are among those the keys spell. */
  lemma PlacedIsKnown(lock: Lockfile, keys: set<Key>, tree: Tree, l: Location) returns (k: Key)
    requires WellFormed(lock, tree) && KeysIn(tree) <= keys && l in tree
    ensures k in tree[l].contexts && Item(l, k) in Contexts(tree) && Spells(k, PackageAt(tree, l))
    ensures PackageAt(tree, l) in AllPackages(keys)
    ensures l != [] && Last(l) in AllNames(keys)
  {
    assert NodeOk(lock, tree, l);
    k :| k in tree[l].contexts;
    ContextsOf(tree, l, k);
    assert Item(l, k).key in KeysIn(tree);
  }

  /** What is below the top has a name asked for at two versions. */
  lemma BelowTheTop(lock: Lockfile, keys: set<Key>, tree: Tree, l: Location)
    requires WellFormed(lock, tree) && Shaped(tree) && KeysIn(tree) <= keys && l in tree && |l| > 1
    ensures !OneVersion(keys, PackageAt(tree, l).name)
  {
    assert HasOther(tree, l) && NodeOk(lock, tree, l);
    var other :| other in tree && other != [] && Last(other) == Last(l) && tree[other].version != tree[l].version;
    assert NodeOk(lock, tree, other);
    var k := PlacedIsKnown(lock, keys, tree, l);
    var k' := PlacedIsKnown(lock, keys, tree, other);
    assert Item(l, k).key in KeysIn(tree) && Item(other, k').key in KeysIn(tree);
    assert k in keys && k' in keys && k.name == k'.name;
  }

  lemma SpelledOneDeeper(keys: set<Key>, l: Location)
    requires l != [] && Spelled(keys, Owner(l)) && Last(l) in AllNames(keys)
    ensures Spelled(keys, l)
  {
    assert l == Owner(l) + [Last(l)];
  }

  lemma QueuedIsInTree(lock: Lockfile, s: Layout)
    requires Inv(lock, s) && s.queue != []
    ensures var item := s.queue[0];
            item in Contexts(s.tree) && item.at in s.tree && Spells(item.key, PackageAt(s.tree, item.at))
  {
    assert s.queue[0] in Waiting(s);
    ContextsOf(s.tree, s.queue[0].at, s.queue[0].key);
    assert NodeOk(lock, s.tree, s.queue[0].at);
  }

  /** A new location is one step down from a node that was there. */
  lemma NewLocationIsConfined(lock: Lockfile, keys: set<Key>, s: Layout, t: Layout, l: Location)
    requires s.queue != [] && Inv(lock, s) && Inv(lock, t) && Turn(lock, s, t)
    requires Confined(lock, keys, s.tree) && KeysIn(t.tree) <= keys && Shaped(t.tree)
    requires l in t.tree && l !in s.tree
    ensures AtTheEndOf(lock, keys, PackageAt(t.tree, l), |l|) && Spelled(keys, l)
  {
    var item := s.queue[0];
    var k := PlacedIsKnown(lock, keys, t.tree, l);
    QueuedIsInTree(lock, s);
    ContextsOf(s.tree, l, k);
    assert IsEdgeOf(lock, item.key, k);
    assert DependsOn(lock, PackageAt(s.tree, item.at), PackageAt(t.tree, l));
    if |l| > 1 {
      BelowTheTop(lock, keys, t.tree, l);
      OneDeeper(lock, keys, PackageAt(s.tree, item.at), |item.at|, PackageAt(t.tree, l), |l|);
    } else {
      JustOne(lock, keys, PackageAt(t.tree, l));
    }
    assert Spelled(keys, Owner(l));
    SpelledOneDeeper(keys, l);
  }

  /** Whatever an edge of one of `keys` asks for is one of `keys`. */
  ghost predicate ClosedUnderEdges(lock: Lockfile, keys: set<Key>) {
    forall k, next :: k in keys && IsEdgeOf(lock, k, next) ==> next in keys
  }

  lemma TurnStaysAmongKeys(lock: Lockfile, keys: set<Key>, s: Layout, t: Layout)
    requires s.queue != [] && Inv(lock, s) && Turn(lock, s, t) && KeysIn(s.tree) <= keys && ClosedUnderEdges(lock, keys)
    ensures KeysIn(t.tree) <= keys
  {
    var item := s.queue[0];
    QueuedIsInTree(lock, s);
    assert item.key in KeysIn(s.tree);
    forall k | k in KeysIn(t.tree) ensures k in keys {
      var i :| i in Contexts(t.tree) && i.key == k;
      if i in Contexts(s.tree) {
        assert k in KeysIn(s.tree);
      } else {
        assert IsEdgeOf(lock, item.key, k);
      }
    }
  }

  lemma TurnStaysConfined(lock: Lockfile, keys: set<Key>, s: Layout, t: Layout)
    requires s.queue != [] && Inv(lock, s) && Inv(lock, t) && Turn(lock, s, t) && Shaped(t.tree)
    requires Confined(lock, keys, s.tree) && ClosedUnderEdges(lock, keys)
    ensures Confined(lock, keys, t.tree)
  {
    TurnStaysAmongKeys(lock, keys, s, t);
    forall l | l in t.tree
      ensures AtTheEndOf(lock, keys, PackageAt(t.tree, l), |l|) && Spelled(keys, l)
    {
      if l !in s.tree {
        NewLocationIsConfined(lock, keys, s, t, l);
      } else {
        assert PackageAt(t.tree, l) == PackageAt(s.tree, l);
      }
    }
  }

  lemma BeginIsConfined(lock: Lockfile, m: Manifest, importers: seq<string>, r: Rooted)
    requires Begin(lock, m, importers) == Ok(r)
    ensures Confined(lock, ReachedKeys(lock, m, importers), r.layout.tree)
  {
    var keys := ReachedKeys(lock, m, importers);
    ReachedKeysAreClosed(lock, m, importers);
    BeginIsOk(lock, m, importers, r);
    forall l | l in r.layout.tree
      ensures AtTheEndOf(lock, keys, PackageAt(r.layout.tree, l), |l|) && Spelled(keys, l)
    {
      var _ := PlacedIsKnown(lock, keys, r.layout.tree, l);
      JustOne(lock, keys, PackageAt(r.layout.tree, l));
      SpelledOneDeeper(keys, l);
    }
  }

  ghost predicate Contained(lock: Lockfile, keys: set<Key>, s: Layout) {
    Shaped(s.tree) && Confined(lock, keys, s.tree)
  }

  ghost function ContainedIn(lock: Lockfile, keys: set<Key>): (nat, Layout) -> bool {
    (i: nat, s: Layout) => Contained(lock, keys, s)
  }

  lemma MoveStaysContained(lock: Lockfile, keys: set<Key>, i: nat, a: Layout, b: Layout)
    requires ClosedUnderEdges(lock, keys)
    ensures Turns(lock)(a, b) && ContainedIn(lock, keys)(i, a) ==> ContainedIn(lock, keys)(i + 1, b)
  {
    if Moves(lock, a, b) && Contained(lock, keys, a) && a.queue != [] { TurnStaysConfined(lock, keys, a, b); }
  }

  lemma ContainmentIsKept(lock: Lockfile, keys: set<Key>)
    requires ClosedUnderEdges(lock, keys)
    ensures Kept(Turns(lock), ContainedIn(lock, keys))
  {
    forall i: nat, a, b ensures Turns(lock)(a, b) && ContainedIn(lock, keys)(i, a) ==> ContainedIn(lock, keys)(i + 1, b) {
      MoveStaysContained(lock, keys, i, a, b);
    }
  }

  lemma ReachedIsConfined(lock: Lockfile, m: Manifest, importers: seq<string>, r: Rooted, turns: nat, t: Layout)
    requires Begin(lock, m, importers) == Ok(r) && After(lock, r.layout, turns) == Ok(t)
    ensures Confined(lock, ReachedKeys(lock, m, importers), t.tree)
  {
    BeginKeepsInv(lock, m, importers, r);
    BeginIsConfined(lock, m, importers, r);
    DerivedIsShaped(lock, m, importers, turns, r, t);
    var trace := AfterIsRun(lock, r.layout, turns, t);
    ReachedKeysAreClosed(lock, m, importers);
    ContainmentIsKept(lock, ReachedKeys(lock, m, importers));
    HoldsAllAlong(Turns(lock), trace, ContainedIn(lock, ReachedKeys(lock, m, importers)), turns);
  }

  /**
   * Whatever the lockfile, no location is ever deeper than some chain of
   * packages that depend on one another and end at the package placed there.
   */
  lemma NoDeeperThanAChain(lock: Lockfile, m: Manifest, importers: seq<string>, turns: nat, r: Rooted, t: Layout, l: Location)
    requires Begin(lock, m, importers) == Ok(r) && After(lock, r.layout, turns) == Ok(t) && l in t.tree
    ensures exists chain :: IsChain(lock, chain) && chain[|chain| - 1] == PackageAt(t.tree, l) && |l| <= |chain|
  {
    ReachedIsConfined(lock, m, importers, r, turns, t);
    var keys := ReachedKeys(lock, m, importers);
    var chain :| ChainTo(lock, keys, chain, PackageAt(t.tree, l)) && |chain| >= |l|;
  }

  // ----------------------------------------------------------- counting turns

  /** Every pair a run over these keys could ever visit, when no chain is longer than the packages are many. */
  ghost function Cells(keys: set<Key>): set<Item> {
    set l, k | l in SequencesUpTo(AllNames(keys), |AllPackages(keys)|) && k in keys :: Item(l, k)
  }

  lemma ConfinedFits(lock: Lockfile, keys: set<Key>, tree: Tree)
    requires CirclesAtOneVersion(lock, keys) && Confined(lock, keys, tree)
    ensures Contexts(tree) <= Cells(keys)
  {
    forall i | i in Contexts(tree) ensures i in Cells(keys) {
      var l, k := i.at, i.key;
      ContextsOf(tree, l, k);
      assert i.key in KeysIn(tree);
      var chain :| ChainTo(lock, keys, chain, PackageAt(tree, l)) && |chain| >= |l|;
      SuchChainsAreDistinct(lock, keys, chain);
      DistinctFits(chain, AllPackages(keys));
      assert l in SequencesUpTo(AllNames(keys), |AllPackages(keys)|);
      assert i == Item(l, k);
    }
  }

  lemma FrontIsWaiting(s: Layout)
    requires s.queue != []
    ensures s.queue[0] !in Visited(s)
  {
    assert s.queue[0] in Waiting(s);
  }

  lemma OneMoreVisited(lock: Lockfile, a: Layout, b: Layout)
    requires Moves(lock, a, b)
    ensures a.queue == [] ==> b.queue == []
    ensures a.queue != [] ==> |Visited(b)| == |Visited(a)| + 1 && Visited(b) == Visited(a) + {a.queue[0]}
  {
    if a.queue != [] { FrontIsWaiting(a); }
  }

  ghost function Counts(): (nat, Layout) -> bool {
    (i: nat, s: Layout) => s.queue != [] ==> |Visited(s)| >= i
  }

  /** A run still going after `n` turns has visited that many different pairs. */
  lemma TurnsAreCounted(lock: Lockfile, trace: seq<Layout>, n: nat)
    requires IsRun(Turns(lock), trace) && n < |trace| && trace[n].queue != []
    ensures |Visited(trace[n])| >= n
  {
    forall i: nat, a, b | Turns(lock)(a, b) && Counts()(i, a) ensures Counts()(i + 1, b) {
      OneMoreVisited(lock, a, b);
    }
    HoldsAllAlong(Turns(lock), trace, Counts(), n);
  }

  lemma StillGoingIsBounded(lock: Lockfile, keys: set<Key>, t: Layout)
    requires Inv(lock, t) && t.queue != [] && Contexts(t.tree) <= Cells(keys)
    ensures |Visited(t)| < |Cells(keys)|
  {
    assert t.queue[0] in Waiting(t);
    SubsetFits(Visited(t) + {t.queue[0]}, Cells(keys));
  }

  /**
   * When the reached packages that depend on themselves have names asked for at
   * one version, the worklist ends: a bound that the lockfile and the manifest
   * alone decide, after which every run has halted.
   */
  lemma RunsEndWithCirclesAtOneVersion(lock: Lockfile, m: Manifest, importers: seq<string>, r: Rooted, turns: nat)
    requires CirclesAtOneVersion(lock, ReachedKeys(lock, m, importers)) && Begin(lock, m, importers) == Ok(r)
    requires turns >= |Cells(ReachedKeys(lock, m, importers))|
    ensures Halted(After(lock, r.layout, turns))
  {
    var result := After(lock, r.layout, turns);
    if result.Ok? && result.value.queue != [] {
      BeginKeepsInv(lock, m, importers, r);
      var trace := AfterIsRun(lock, r.layout, turns, result.value);
      ReachedIsConfined(lock, m, importers, r, turns, result.value);
      ConfinedFits(lock, ReachedKeys(lock, m, importers), result.value.tree);
      TurnsAreCounted(lock, trace, turns);
      StillGoingIsBounded(lock, ReachedKeys(lock, m, importers), result.value);
    }
  }

  /** So a lockfile without circles always ends, and so does one reached at a single version of each name, circles or not. */
  lemma PlainRunsEnd(lock: Lockfile, m: Manifest, importers: seq<string>, r: Rooted, turns: nat)
    requires Acyclic(lock) || forall name :: OneVersion(ReachedKeys(lock, m, importers), name)
    requires Begin(lock, m, importers) == Ok(r) && turns >= |Cells(ReachedKeys(lock, m, importers))|
    ensures Halted(After(lock, r.layout, turns))
  {
    if Acyclic(lock) { AcyclicHasNoCircles(lock, ReachedKeys(lock, m, importers)); }
    RunsEndWithCirclesAtOneVersion(lock, m, importers, r, turns);
  }

  ghost function HasVisited(i: Item): (nat, Layout) -> bool {
    (n: nat, s: Layout) => i in Visited(s)
  }

  lemma VisitedGrows(lock: Lockfile, a: Layout, b: Layout)
    requires Moves(lock, a, b)
    ensures Visited(a) <= Visited(b)
  {
  }

  /** What has been visited stays visited. */
  lemma VisitedIsKept(lock: Lockfile, item: Item)
    ensures Kept(Turns(lock), HasVisited(item))
  {
    forall i: nat, a, b | Turns(lock)(a, b) && HasVisited(item)(i, a) ensures HasVisited(item)(i + 1, b) {
      VisitedGrows(lock, a, b);
    }
  }

  lemma VisitedOnTheNext(lock: Lockfile, a: Layout, next: Layout)
    requires Moves(lock, a, next) && a.queue != []
    ensures a.queue[0] in Visited(next)
  {
    OneMoreVisited(lock, a, next);
  }

  lemma VisitedFromThenOn(lock: Lockfile, trace: seq<Layout>, item: Item)
    requires IsRun(Turns(lock), trace) && |trace| > 1 && trace[0].queue != [] && trace[0].queue[0] == item
    ensures HasVisited(item)(0, trace[|trace| - 1])
  {
    assert Hop(Turns(lock), trace, 0);
    VisitedOnTheNext(lock, trace[0], trace[1]);
    LaterRun(Turns(lock), trace, 1);
    VisitedIsKept(lock, item);
    HoldsAllAlong(Turns(lock), trace[1..], HasVisited(item), |trace| - 2);
  }

  /** The run from one turn to a later one. */
  lemma {:induction false} RunBetween(lock: Lockfile, s: Layout, i: nat, a: Layout, j: nat, b: Layout) returns (trace: seq<Layout>)
    requires Inv(lock, s) && QueuedIsPlaced(s) && i <= j
    requires After(lock, s, i) == Ok(a) && After(lock, s, j) == Ok(b)
    ensures IsRun(Turns(lock), trace) && |trace| == j - i + 1 && trace[0] == a && trace[|trace| - 1] == b && Inv(lock, b)
    decreases j
  {
    if i == j {
      AfterKeepsInv(lock, s, i, a);
      trace := [a];
    } else {
      var before := LastTurn(lock, s, j, b);
      trace := RunBetween(lock, s, i, a, j - 1, before);
      LongerRun(Turns(lock), trace, b);
      trace := trace + [b];
    }
  }

  lemma HeadsDiffer(lock: Lockfile, trace: seq<Layout>, a: Layout, b: Layout)
    requires IsRun(Turns(lock), trace) && |trace| > 1 && trace[0] == a && trace[|trace| - 1] == b
    requires a.queue != [] && b.queue != []
    ensures a.queue[0] != b.queue[0]
  {
    VisitedFromThenOn(lock, trace, a.queue[0]);
    FrontIsWaiting(b);
  }

  /** Acyclic or not, no pair is ever taken off the worklist twice. */
  lemma NothingIsVisitedTwice(lock: Lockfile, m: Manifest, importers: seq<string>, r: Rooted, i: nat, j: nat, a: Layout, b: Layout)
    requires Begin(lock, m, importers) == Ok(r) && i < j
    requires After(lock, r.layout, i) == Ok(a) && After(lock, r.layout, j) == Ok(b)
    requires a.queue != [] && b.queue != []
    ensures a.queue[0] != b.queue[0]
  {
    BeginKeepsInv(lock, m, importers, r);
    var trace := RunBetween(lock, r.layout, i, a, j, b);
    HeadsDiffer(lock, trace, a, b);
  }
}
