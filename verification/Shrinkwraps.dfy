/**
 * The shrinkwrap as written: every entry satisfies the edge that reaches it,
 * unless a bundled package stands where the lockfile placed another version of
 * it, and exactly then not.
 */
module Shrinkwraps {
  import opened Outcomes
  import opened Lockfiles
  import opened Layouts
  import opened LayoutInvariants
  import opened VisitInvariants
  import opened Derivations
  import opened Resolution
  import opened Closure
  import opened Runs

  /** The entry at `l` pins `name` to `version`. */
  ghost predicate Pins(entries: map<Location, Entry>, l: Location, name: string, version: string) {
    && l in entries && entries[l].Fetched?
    && ((name in entries[l].dependencies && entries[l].dependencies[name] == version) ||
        (name in entries[l].optionalDependencies && entries[l].optionalDependencies[name] == version))
  }

  /** The entry Node finds for `name` from `l` is at exactly `version`. */
  ghost predicate Satisfied(entries: map<Location, Entry>, l: Location, name: string, version: string) {
    exists found :: IsNearest(entries.Keys, l, name, found) && entries[found].version == version
  }

  /** Where the tarball carries its own copy of a package the lockfile placed at another version. */
  ghost predicate Clashes(r: Rooted, s: Layout, found: Location) {
    found in s.tree && found in r.inBundle && r.inBundle[found] != s.tree[found].version
  }

  lemma OnlyOneNearest(present: set<Location>, l: Location, name: string, found: Location)
    requires IsNearest(present, l, name, found)
    ensures forall other :: IsNearest(present, l, name, other) ==> other == found
  {
    WalkIsNearest(present, l, name);
  }

  lemma RecordedIsNearest(present: set<Location>, tree: Tree, l: Location, landed: map<string, Location>,
                          versions: map<string, string>, name: string, version: string)
    requires Resolves(present, l, landed) && Records(tree, landed, versions)
    requires name in versions && versions[name] == version
    ensures landed[name] in tree && tree[landed[name]].version == version
    ensures IsNearest(present, l, name, landed[name])
  {
    WalkIsNearest(present, l, name);
  }

  lemma PinIsRecorded(lock: Lockfile, r: Rooted, s: Layout, builds: set<string>, required: set<Location>,
                      entries: map<Location, Entry>, l: Location, name: string, version: string)
    returns (found: Location)
    requires NodesAgree(lock, s.tree) && LayoutHolds(s.tree, r.inBundle)
    requires Writes(lock, r, s, builds, required, entries) && Pins(entries, l, name, version)
    ensures found in s.tree && s.tree[found].version == version && IsNearest(entries.Keys, l, name, found)
  {
    assert l in s.tree && l !in r.inBundle;
    assert EntryFor(lock, s.tree[l], builds, l in required) == Ok(entries[l]);
    assert EdgesMatch(s.tree, l);
    var node := s.tree[l];
    var resolved := node.resolved.value;
    if name in resolved.dependencies && resolved.dependencies[name] == version {
      found := node.required[name];
      RecordedIsNearest(entries.Keys, s.tree, l, node.required, resolved.dependencies, name, version);
    } else {
      found := node.optional[name];
      RecordedIsNearest(entries.Keys, s.tree, l, node.optional, resolved.optionalDependencies, name, version);
    }
  }

  lemma WrittenVersion(lock: Lockfile, r: Rooted, s: Layout, builds: set<string>, required: set<Location>,
                       entries: map<Location, Entry>, l: Location)
    requires Writes(lock, r, s, builds, required, entries) && l in s.tree
    ensures l in entries && entries[l].version == if l in r.inBundle then r.inBundle[l] else s.tree[l].version
  {
    if l !in r.inBundle { assert EntryFor(lock, s.tree[l], builds, l in required) == Ok(entries[l]); }
  }

  /**
   * The requirement the placement is checked for before anything is written:
   * an entry satisfies the edge that reaches it, exactly unless the edge lands
   * on a bundled package pinned to some other version.
   */
  lemma WrittenEdgeIsSatisfied(lock: Lockfile, m: Manifest, importers: seq<string>, turns: nat, r: Rooted, s: Layout,
                               builds: set<string>, required: set<Location>, entries: map<Location, Entry>,
                               l: Location, name: string, version: string)
    requires Derives(lock, m, importers, turns, r, s) && Writes(lock, r, s, builds, required, entries)
    requires Pins(entries, l, name, version)
    ensures exists found ::
              && IsNearest(entries.Keys, l, name, found) && found in s.tree
              && (Satisfied(entries, l, name, version) <==> !Clashes(r, s, found))
  {
    DerivedIsComplete(lock, m, importers, turns, r, s);
    var found := PinIsRecorded(lock, r, s, builds, required, entries, l, name, version);
    OnlyOneNearest(entries.Keys, l, name, found);
    WrittenVersion(lock, r, s, builds, required, entries, found);
  }

  // ---------------------------------------------------- keeping the two apart

  ghost predicate BundledOnly(m: Manifest, r: Rooted) {
    forall l :: l in r.inBundle ==> |l| == 1 && l[0] in m.bundleDependencies
  }

  lemma {:induction false} RootAllBundles(lock: Lockfile, m: Manifest, importers: seq<string>, r: Rooted, edges: seq<RootEdge>, next: Rooted)
    requires QueuedIsPlaced(r.layout) && BundledOnly(m, r) && RootAll(lock, m, importers, r, edges) == Ok(next)
    ensures BundledOnly(m, next)
    decreases |edges|
  {
    if edges != [] {
      var step := Root(lock, m, importers, r, edges[0]).value;
      RootAllBundles(lock, m, importers, step, edges[1..], next);
    }
  }

  /** No edge the root reaches in the lockfile names a bundled package. */
  ghost predicate BundleIsApart(lock: Lockfile, m: Manifest, importers: seq<string>) {
    forall k, e: Edge ::
      Reachable(lock, RootKeys(lock, m, importers), k) && Follows(lock, k, e) ==> e.name !in m.bundleDependencies
  }

  lemma PathEndIsReachable(lock: Lockfile, roots: set<Key>, path: seq<Key>)
    requires IsPath(lock, path) && path[0] in roots
    ensures Reachable(lock, roots, path[|path| - 1])
  {
  }

  lemma ReachedByAnEdge(lock: Lockfile, roots: set<Key>, k: Key)
    requires Reachable(lock, roots, k)
    ensures k in roots || exists before :: Reachable(lock, roots, before) && IsEdgeOf(lock, before, k)
  {
    var path :| IsPath(lock, path) && path[0] in roots && path[|path| - 1] == k;
    if |path| > 1 {
      ShorterRun(Leads(lock), path);
      PathEndIsReachable(lock, roots, path[..|path| - 1]);
      assert path[..|path| - 1][|path| - 2] == path[|path| - 2];
    }
  }

  lemma ReachedIsNotBundled(lock: Lockfile, m: Manifest, importers: seq<string>, k: Key)
    requires BundleIsApart(lock, m, importers) && Reachable(lock, RootKeys(lock, m, importers), k)
    ensures k.name !in m.bundleDependencies
  {
    ReachedByAnEdge(lock, RootKeys(lock, m, importers), k);
  }

  /** Then nothing is placed where a bundled package stands. */
  lemma ApartMeansNoClash(lock: Lockfile, m: Manifest, importers: seq<string>, turns: nat, r: Rooted, s: Layout)
    requires Derives(lock, m, importers, turns, r, s) && BundleIsApart(lock, m, importers)
    ensures s.tree.Keys !! r.inBundle.Keys
  {
    DerivedIsComplete(lock, m, importers, turns, r, s);
    RootAllBundles(lock, m, importers, Bare, RootEdges(m), r);
    forall l | l in s.tree ensures l !in r.inBundle {
      assert NodeOk(lock, s.tree, l);
      var k :| k in s.tree[l].contexts;
      ContextsOf(s.tree, l, k);
      assert Item(l, k).key in KeysIn(s.tree);
      HoldsExactlyWhatIsReached(lock, m, importers, turns, r, s, k);
      ReachedIsNotBundled(lock, m, importers, k);
    }
  }

  /** With the bundle kept apart, every entry satisfies every edge that reaches it. */
  lemma EveryWrittenEdgeIsSatisfied(lock: Lockfile, m: Manifest, importers: seq<string>, turns: nat, r: Rooted, s: Layout,
                                    builds: set<string>, required: set<Location>, entries: map<Location, Entry>,
                                    l: Location, name: string, version: string)
    requires Derives(lock, m, importers, turns, r, s) && Writes(lock, r, s, builds, required, entries)
    requires BundleIsApart(lock, m, importers) && Pins(entries, l, name, version)
    ensures Satisfied(entries, l, name, version)
  {
    WrittenEdgeIsSatisfied(lock, m, importers, turns, r, s, builds, required, entries, l, name, version);
    ApartMeansNoClash(lock, m, importers, turns, r, s);
  }
}
