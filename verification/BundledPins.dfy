/**
 * Exactly when every edge of the shrinkwrap is satisfied, in terms of the
 * lockfile and the manifest alone: when each edge that is written and names a
 * bundled package asks for the version the manifest pins.
 */
module BundledPins {
  import opened Outcomes
  import opened Lockfiles
  import opened Layouts
  import opened LayoutInvariants
  import opened Derivations
  import opened Resolution
  import opened Closure
  import opened Tops
  import opened Sources
  import opened Shrinkwraps
  import Names

  // ---------------------------------------------------------- what is bundled

  predicate Bundled(m: Manifest, name: string) {
    name in m.bundleDependencies && (name in m.dependencies || name in m.optionalDependencies)
  }

  /** The version the manifest pins a bundled package to; an optional edge is the last to say. */
  function Pin(m: Manifest, name: string): string
    requires Bundled(m, name)
  {
    if name in m.optionalDependencies then m.optionalDependencies[name] else m.dependencies[name]
  }

  /** What the root edges put in the bundle, one after the other. */
  function BundleOf(m: Manifest, start: map<Location, string>, edges: seq<RootEdge>): map<Location, string>
    decreases |edges|
  {
    if edges == [] then start
    else BundleOf(m, if edges[0].name in m.bundleDependencies then start[[edges[0].name] := edges[0].range] else start, edges[1..])
  }

  lemma {:induction false} RootAllBundlesThese(lock: Lockfile, m: Manifest, importers: seq<string>, r: Rooted, edges: seq<RootEdge>)
    requires QueuedIsPlaced(r.layout) && RootAll(lock, m, importers, r, edges).Ok?
    ensures RootAll(lock, m, importers, r, edges).value.inBundle == BundleOf(m, r.inBundle, edges)
    decreases |edges|
  {
    if edges != [] {
      RootAllBundlesThese(lock, m, importers, Root(lock, m, importers, r, edges[0]).value, edges[1..]);
    }
  }

  lemma {:induction false} BundleOfJoin(m: Manifest, start: map<Location, string>, a: seq<RootEdge>, b: seq<RootEdge>)
    ensures BundleOf(m, start, a + b) == BundleOf(m, BundleOf(m, start, a), b)
    decreases |a|
  {
    if a == [] {
      assert a + b == b;
    } else {
      assert (a + b)[0] == a[0] && (a + b)[1..] == a[1..] + b;
      BundleOfJoin(m, if a[0].name in m.bundleDependencies then start[[a[0].name] := a[0].range] else start, a[1..], b);
    }
  }

  /** `after` has the pin of `n`, if it is bundled and among `names`, and is otherwise as `start` for it. */
  ghost predicate Pinned(m: Manifest, start: map<Location, string>, after: map<Location, string>, names: seq<string>, n: string) {
    if n in names && Bundled(m, n) then
      [n] in after && after[[n]] == Pin(m, n)
    else
      ([n] in after <==> [n] in start) && ([n] in start ==> after[[n]] == start[[n]])
  }

  lemma BundleOfName(m: Manifest, start: map<Location, string>, name: string, n: string)
    ensures Pinned(m, start, BundleOf(m, start, RootEdgesOf(m, name)), [name], n)
  {
    var required := if name in m.dependencies then [RootEdge(name, m.dependencies[name], false)] else [];
    var optional := if name in m.optionalDependencies then [RootEdge(name, m.optionalDependencies[name], true)] else [];
    BundleOfJoin(m, start, required, optional);
    assert n != name ==> [n] != [name] by {
      assert [n][0] == n && [name][0] == name;
    }
    assert forall e: RootEdge :: [e][1..] == [];
  }

  lemma {:induction false} BundleOfNames(m: Manifest, start: map<Location, string>, names: seq<string>, n: string)
    requires forall i, j :: 0 <= i < j < |names| ==> names[i] != names[j]
    ensures Pinned(m, start, BundleOf(m, start, RootEdgesFor(m, names)), names, n)
    decreases |names|
  {
    if names != [] {
      var mid := BundleOf(m, start, RootEdgesOf(m, names[0]));
      BundleOfJoin(m, start, RootEdgesOf(m, names[0]), RootEdgesFor(m, names[1..]));
      BundleOfName(m, start, names[0], n);
      BundleOfNames(m, mid, names[1..], n);
      assert n in names <==> n == names[0] || n in names[1..];
    }
  }

  /** The bundle holds exactly the bundled packages the manifest has edges to, each at its pin. */
  lemma BundleIsThePins(lock: Lockfile, m: Manifest, importers: seq<string>, r: Rooted)
    requires Begin(lock, m, importers) == Ok(r)
    ensures forall n :: [n] in r.inBundle <==> Bundled(m, n)
    ensures forall n :: Bundled(m, n) ==> r.inBundle[[n]] == Pin(m, n)
    ensures forall l :: l in r.inBundle ==> |l| == 1
  {
    var names := Names.Sorted(m.dependencies.Keys + m.optionalDependencies.Keys);
    RootAllBundlesThese(lock, m, importers, Bare, RootEdges(m));
    RootAllBundles(lock, m, importers, Bare, RootEdges(m), r);
    forall n ensures ([n] in r.inBundle <==> Bundled(m, n)) && (Bundled(m, n) ==> r.inBundle[[n]] == Pin(m, n)) {
      BundleOfNames(m, map[], names, n);
    }
  }

  // ------------------------------------------------------ what is reached of it

  ghost predicate Reached(lock: Lockfile, m: Manifest, importers: seq<string>, k: Key) {
    Reachable(lock, RootKeys(lock, m, importers), k)
  }

  /** Each bundled name is reached in the lockfile at one version at most. */
  ghost predicate BundledAtOneVersion(lock: Lockfile, m: Manifest, importers: seq<string>) {
    forall k, k' ::
      (Reached(lock, m, importers, k) && Reached(lock, m, importers, k') && k.name == k'.name && Bundled(m, k.name)) ==>
        WithoutPeers(k.value) == WithoutPeers(k'.value)
  }

  /** What is placed somewhere is what some reached key resolves. */
  lemma PlacedIsReached(lock: Lockfile, m: Manifest, importers: seq<string>, turns: nat, r: Rooted, s: Layout, l: Location)
    returns (k: Key)
    requires Derives(lock, m, importers, turns, r, s) && l in s.tree
    ensures l != [] && k in s.tree[l].contexts && Reached(lock, m, importers, k)
    ensures k.name == Last(l) && WithoutPeers(k.value) == Some(s.tree[l].version)
  {
    DerivedIsComplete(lock, m, importers, turns, r, s);
    assert NodeOk(lock, s.tree, l);
    k :| k in s.tree[l].contexts;
    ContextsOf(s.tree, l, k);
    assert Item(l, k).key in KeysIn(s.tree);
    HoldsExactlyWhatIsReached(lock, m, importers, turns, r, s, k);
  }

  /** Every context of a placed node is reached. */
  lemma ContextIsReached(lock: Lockfile, m: Manifest, importers: seq<string>, turns: nat, r: Rooted, s: Layout, l: Location, k: Key)
    requires Derives(lock, m, importers, turns, r, s) && l in s.tree && k in s.tree[l].contexts
    ensures Reached(lock, m, importers, k) && l != [] && k.name == Last(l)
  {
    DerivedIsComplete(lock, m, importers, turns, r, s);
    assert NodeOk(lock, s.tree, l);
    ContextsOf(s.tree, l, k);
    assert Item(l, k).key in KeysIn(s.tree);
    HoldsExactlyWhatIsReached(lock, m, importers, turns, r, s, k);
  }

  lemma ReachedIsPlaced(lock: Lockfile, m: Manifest, importers: seq<string>, turns: nat, r: Rooted, s: Layout, k: Key)
    returns (l: Location)
    requires Derives(lock, m, importers, turns, r, s) && Reached(lock, m, importers, k)
    ensures l in s.tree && l != [] && k in s.tree[l].contexts && k.name == Last(l)
    ensures WithoutPeers(k.value) == Some(s.tree[l].version) && [k.name] in s.tree
  {
    DerivedIsComplete(lock, m, importers, turns, r, s);
    DerivedIsShaped(lock, m, importers, turns, r, s);
    HoldsExactlyWhatIsReached(lock, m, importers, turns, r, s, k);
    var i :| i in Contexts(s.tree) && i.key == k;
    l := i.at;
    ContextsOf(s.tree, l, k);
    assert NodeOk(lock, s.tree, l);
  }

  /** A pin that no reached version meets always clashes with the copy at the top. */
  lemma AnUnmetPinClashes(lock: Lockfile, m: Manifest, importers: seq<string>, turns: nat, r: Rooted, s: Layout, k: Key)
    requires Derives(lock, m, importers, turns, r, s) && Reached(lock, m, importers, k) && Bundled(m, k.name)
    requires forall k' :: Reached(lock, m, importers, k') && k'.name == k.name ==> WithoutPeers(k'.value) != Some(Pin(m, k.name))
    ensures Clashes(r, s, [k.name])
  {
    BundleIsThePins(lock, m, importers, r);
    var l := ReachedIsPlaced(lock, m, importers, turns, r, s, k);
    var k' := PlacedIsReached(lock, m, importers, turns, r, s, [k.name]);
  }

  /** A bundled name is reached at a version that is not its pin. */
  ghost predicate IsUnmet(lock: Lockfile, m: Manifest, importers: seq<string>, k: Key) {
    Reached(lock, m, importers, k) && Bundled(m, k.name) && WithoutPeers(k.value) != Some(Pin(m, k.name))
  }

  lemma ClashIsAnUnmetPin(lock: Lockfile, m: Manifest, importers: seq<string>, turns: nat, r: Rooted, s: Layout, found: Location)
    returns (k: Key)
    requires Derives(lock, m, importers, turns, r, s) && Clashes(r, s, found)
    ensures IsUnmet(lock, m, importers, k)
  {
    BundleIsThePins(lock, m, importers, r);
    k := PlacedIsReached(lock, m, importers, turns, r, s, found);
    assert found == [k.name];
  }

  /** Something is bundled over another version of itself exactly when a bundled name is reached at a version that is not its pin. */
  lemma ClashesExactlyWhenAPinIsUnmet(lock: Lockfile, m: Manifest, importers: seq<string>, turns: nat, r: Rooted, s: Layout)
    requires Derives(lock, m, importers, turns, r, s) && BundledAtOneVersion(lock, m, importers)
    ensures (exists found :: Clashes(r, s, found)) <==> exists k :: IsUnmet(lock, m, importers, k)
  {
    if found :| Clashes(r, s, found) {
      var k := ClashIsAnUnmetPin(lock, m, importers, turns, r, s, found);
    }
    if k :| IsUnmet(lock, m, importers, k) {
      AnUnmetPinClashes(lock, m, importers, turns, r, s, k);
    }
  }

  /** A bundled name reached at one version is placed at the top and nowhere else. */
  lemma OnlyAtTheTop(lock: Lockfile, m: Manifest, importers: seq<string>, turns: nat, r: Rooted, s: Layout, l: Location)
    requires Derives(lock, m, importers, turns, r, s) && BundledAtOneVersion(lock, m, importers)
    requires l in s.tree && l != [] && Bundled(m, Last(l))
    ensures |l| == 1
  {
    DerivedIsShaped(lock, m, importers, turns, r, s);
    if |l| > 1 {
      assert HasOther(s.tree, l);
      var other :| other in s.tree && other != [] && Last(other) == Last(l) && s.tree[other].version != s.tree[l].version;
      var k := PlacedIsReached(lock, m, importers, turns, r, s, l);
      var k' := PlacedIsReached(lock, m, importers, turns, r, s, other);
    }
  }

  // ------------------------------------------------------- every edge satisfied

  /** An edge the shrinkwrap writes down: of a reached package that is not itself bundled, and no peer. */
  ghost predicate IsWritten(lock: Lockfile, m: Manifest, importers: seq<string>, k: Key, e: Edge) {
    Reached(lock, m, importers, k) && !Bundled(m, k.name) && IsOwnEdge(lock, k, e)
  }

  /** Each of them that names a bundled package asks for its pin. */
  ghost predicate PinsAreMet(lock: Lockfile, m: Manifest, importers: seq<string>) {
    forall k, e: Edge :: IsWritten(lock, m, importers, k, e) && Bundled(m, e.name) ==> WithoutPeers(e.value) == Some(Pin(m, e.name))
  }

  /** The root's edge to a package that is not bundled finds it, at the version the importers resolve to. */
  ghost predicate RootIsSatisfied(lock: Lockfile, m: Manifest, importers: seq<string>, entries: map<Location, Entry>, e: RootEdge) {
    var version := ResolvedByImporters(lock, importers, e.name, e.range);
    version.Ok? && WithoutPeers(version.value).Some? && Satisfied(entries, [], e.name, WithoutPeers(version.value).value)
  }

  lemma NearestTheRoot(present: set<Location>, name: string)
    requires [name] in present
    ensures IsNearest(present, [], name, [name])
  {
    var none: Location := [];
    assert none[..0] == [] && none + [name] == [name];
  }

  lemma RootEdgeIsWritten(lock: Lockfile, m: Manifest, importers: seq<string>, turns: nat, r: Rooted, s: Layout,
                          builds: set<string>, required: set<Location>, entries: map<Location, Entry>, e: RootEdge)
    requires Derives(lock, m, importers, turns, r, s) && Writes(lock, r, s, builds, required, entries)
    requires e in RootEdges(m) && e.name !in m.bundleDependencies
    ensures var version := ResolvedByImporters(lock, importers, e.name, e.range);
            version.Ok? && [e.name] in entries && WithoutPeers(version.value) == Some(entries[[e.name]].version)
  {
    DerivedIsShaped(lock, m, importers, turns, r, s);
    BundleIsThePins(lock, m, importers, r);
    assert AtTheTop(lock, m, importers, s.tree, e);
    WrittenVersion(lock, r, s, builds, required, entries, [e.name]);
  }

  lemma RootEdgesAreSatisfied(lock: Lockfile, m: Manifest, importers: seq<string>, turns: nat, r: Rooted, s: Layout,
                              builds: set<string>, required: set<Location>, entries: map<Location, Entry>, e: RootEdge)
    requires Derives(lock, m, importers, turns, r, s) && Writes(lock, r, s, builds, required, entries)
    requires e in RootEdges(m) && e.name !in m.bundleDependencies
    ensures RootIsSatisfied(lock, m, importers, entries, e)
  {
    RootEdgeIsWritten(lock, m, importers, turns, r, s, builds, required, entries, e);
    NearestTheRoot(entries.Keys, e.name);
    assert IsNearest(entries.Keys, [], e.name, [e.name]);
  }

  /** At a node, an own edge of a snapshot it was reached through is among the versions it is written with. */
  lemma OwnEdgeIsResolved(lock: Lockfile, m: Manifest, importers: seq<string>, turns: nat, r: Rooted, s: Layout, l: Location, k: Key, e: Edge)
    requires Derives(lock, m, importers, turns, r, s) && l in s.tree && k in s.tree[l].contexts && IsOwnEdge(lock, k, e)
    ensures s.tree[l].resolved.Some? && WithoutPeers(e.value).Some?
    ensures VersionFor(s.tree[l].resolved.value, e) == WithoutPeers(e.value)
  {
    DerivedIsComplete(lock, m, importers, turns, r, s);
    ContextsOf(s.tree, l, k);
    assert Item(l, k) in Visited(s) && Followed(lock, s.tree, Item(l, k)) && NodeOk(lock, s.tree, l);
    assert Held(PackageOf(lock, PackageAt(s.tree, l)).value, s.tree, l, s.tree[l].resolved.value, e);
  }

  lemma ResolvedIsPinned(lock: Lockfile, r: Rooted, s: Layout, builds: set<string>, required: set<Location>,
                         entries: map<Location, Entry>, l: Location, e: Edge, version: string)
    requires Writes(lock, r, s, builds, required, entries) && l in s.tree && l !in r.inBundle
    requires s.tree[l].resolved.Some? && VersionFor(s.tree[l].resolved.value, e) == Some(version)
    ensures Pins(entries, l, e.name, version)
  {
    assert EntryFor(lock, s.tree[l], builds, l in required) == Ok(entries[l]);
  }

  lemma OnlyBundledIsInTheBundle(lock: Lockfile, m: Manifest, importers: seq<string>, r: Rooted, l: Location)
    requires Begin(lock, m, importers) == Ok(r) && l != []
    ensures l in r.inBundle <==> |l| == 1 && Bundled(m, Last(l))
  {
    BundleIsThePins(lock, m, importers, r);
    assert |l| == 1 ==> l == [Last(l)];
  }

  /** An edge that is written down is pinned by the entry of the package it leaves. */
  lemma WrittenIsPinned(lock: Lockfile, m: Manifest, importers: seq<string>, turns: nat, r: Rooted, s: Layout,
                        builds: set<string>, required: set<Location>, entries: map<Location, Entry>, k: Key, e: Edge)
    returns (l: Location)
    requires Derives(lock, m, importers, turns, r, s) && Writes(lock, r, s, builds, required, entries)
    requires IsWritten(lock, m, importers, k, e)
    ensures WithoutPeers(e.value).Some? && Pins(entries, l, e.name, WithoutPeers(e.value).value)
  {
    l := ReachedIsPlaced(lock, m, importers, turns, r, s, k);
    OnlyBundledIsInTheBundle(lock, m, importers, r, l);
    OwnEdgeIsResolved(lock, m, importers, turns, r, s, l, k, e);
    ResolvedIsPinned(lock, r, s, builds, required, entries, l, e, WithoutPeers(e.value).value);
  }

  lemma PinIsResolved(lock: Lockfile, r: Rooted, s: Layout, builds: set<string>, required: set<Location>,
                      entries: map<Location, Entry>, l: Location, name: string, version: string)
    requires Writes(lock, r, s, builds, required, entries) && Pins(entries, l, name, version)
    ensures l in s.tree && l !in r.inBundle && s.tree[l].resolved.Some?
    ensures var resolved := s.tree[l].resolved.value;
            || (name in resolved.dependencies && resolved.dependencies[name] == version)
            || (name in resolved.optionalDependencies && resolved.optionalDependencies[name] == version)
  {
    assert l in s.tree && l !in r.inBundle;
    assert EntryFor(lock, s.tree[l], builds, l in required) == Ok(entries[l]);
  }

  /** What an entry pins is what some written edge asks for. */
  lemma PinnedIsWritten(lock: Lockfile, m: Manifest, importers: seq<string>, turns: nat, r: Rooted, s: Layout,
                        builds: set<string>, required: set<Location>, entries: map<Location, Entry>,
                        l: Location, name: string, version: string)
    returns (k: Key, e: Edge)
    requires Derives(lock, m, importers, turns, r, s) && Writes(lock, r, s, builds, required, entries)
    requires BundledAtOneVersion(lock, m, importers) && Pins(entries, l, name, version)
    ensures IsWritten(lock, m, importers, k, e) && e.name == name && WithoutPeers(e.value) == Some(version)
  {
    PinIsResolved(lock, r, s, builds, required, entries, l, name, version);
    DerivedIsSourced(lock, m, importers, turns, r, s);
    assert IsSourced(lock, s.tree[l]);
    k :| k in s.tree[l].contexts && IsOf(lock, k, s.tree[l].resolved.value);
    ContextIsReached(lock, m, importers, turns, r, s, l, k);
    assert Sources.Names(lock, k, name, version, false) || Sources.Names(lock, k, name, version, true);
    e :| IsOwnEdge(lock, k, e) && e.name == name && WithoutPeers(e.value) == Some(version);
    OnlyBundledIsInTheBundle(lock, m, importers, r, l);
    if Bundled(m, k.name) { OnlyAtTheTop(lock, m, importers, turns, r, s, l); }
  }

  /** A written edge to a bundled name reached at one version finds the bundle, and nothing else. */
  lemma FindsTheBundle(lock: Lockfile, m: Manifest, importers: seq<string>, turns: nat, r: Rooted, s: Layout,
                       builds: set<string>, required: set<Location>, entries: map<Location, Entry>, l: Location, name: string, found: Location)
    requires Derives(lock, m, importers, turns, r, s) && Writes(lock, r, s, builds, required, entries)
    requires BundledAtOneVersion(lock, m, importers) && Bundled(m, name) && IsNearest(entries.Keys, l, name, found)
    ensures found == [name] && entries[found].version == Pin(m, name)
  {
    BundleIsThePins(lock, m, importers, r);
    assert Last(found) == name;
    if found in s.tree { OnlyAtTheTop(lock, m, importers, turns, r, s, found); }
    assert found == [Last(found)];
  }

  /** Every edge of every entry, and the root's own. */
  ghost predicate AllSatisfied(lock: Lockfile, m: Manifest, importers: seq<string>, entries: map<Location, Entry>) {
    && (forall l, name, version :: Pins(entries, l, name, version) ==> Satisfied(entries, l, name, version))
    && forall e :: e in RootEdges(m) && e.name !in m.bundleDependencies ==> RootIsSatisfied(lock, m, importers, entries, e)
  }

  lemma MetIsSatisfied(lock: Lockfile, m: Manifest, importers: seq<string>, turns: nat, r: Rooted, s: Layout,
                       builds: set<string>, required: set<Location>, entries: map<Location, Entry>, l: Location, name: string, version: string)
    requires Derives(lock, m, importers, turns, r, s) && Writes(lock, r, s, builds, required, entries)
    requires BundledAtOneVersion(lock, m, importers) && PinsAreMet(lock, m, importers) && Pins(entries, l, name, version)
    ensures Satisfied(entries, l, name, version)
  {
    DerivedIsComplete(lock, m, importers, turns, r, s);
    var found := PinIsRecorded(lock, r, s, builds, required, entries, l, name, version);
    if Bundled(m, name) {
      var k, e := PinnedIsWritten(lock, m, importers, turns, r, s, builds, required, entries, l, name, version);
      FindsTheBundle(lock, m, importers, turns, r, s, builds, required, entries, l, name, found);
    } else {
      BundleIsThePins(lock, m, importers, r);
      assert |found| == 1 ==> found == [name];
      WrittenVersion(lock, r, s, builds, required, entries, found);
    }
    assert IsNearest(entries.Keys, l, name, found) && entries[found].version == version;
  }

  lemma SatisfiedIsMet(lock: Lockfile, m: Manifest, importers: seq<string>, turns: nat, r: Rooted, s: Layout,
                       builds: set<string>, required: set<Location>, entries: map<Location, Entry>, k: Key, e: Edge)
    requires Derives(lock, m, importers, turns, r, s) && Writes(lock, r, s, builds, required, entries)
    requires BundledAtOneVersion(lock, m, importers) && AllSatisfied(lock, m, importers, entries)
    requires IsWritten(lock, m, importers, k, e) && Bundled(m, e.name)
    ensures WithoutPeers(e.value) == Some(Pin(m, e.name))
  {
    var l := WrittenIsPinned(lock, m, importers, turns, r, s, builds, required, entries, k, e);
    var version := WithoutPeers(e.value).value;
    assert Satisfied(entries, l, e.name, version);
    var found :| IsNearest(entries.Keys, l, e.name, found) && entries[found].version == version;
    FindsTheBundle(lock, m, importers, turns, r, s, builds, required, entries, l, e.name, found);
  }

  /**
   * With each bundled name reached at one version at most, every edge of the
   * shrinkwrap is satisfied, the root's own included, exactly when every
   * written edge to a bundled package asks for the version the manifest pins.
   */
  lemma AllSatisfiedExactlyWhenPinsAreMet(lock: Lockfile, m: Manifest, importers: seq<string>, turns: nat, r: Rooted, s: Layout,
                                          builds: set<string>, required: set<Location>, entries: map<Location, Entry>)
    requires Derives(lock, m, importers, turns, r, s) && Writes(lock, r, s, builds, required, entries)
    requires BundledAtOneVersion(lock, m, importers)
    ensures AllSatisfied(lock, m, importers, entries) <==> PinsAreMet(lock, m, importers)
  {
    if PinsAreMet(lock, m, importers) {
      forall l, name, version | Pins(entries, l, name, version) ensures Satisfied(entries, l, name, version) {
        MetIsSatisfied(lock, m, importers, turns, r, s, builds, required, entries, l, name, version);
      }
      forall e | e in RootEdges(m) && e.name !in m.bundleDependencies ensures RootIsSatisfied(lock, m, importers, entries, e) {
        RootEdgesAreSatisfied(lock, m, importers, turns, r, s, builds, required, entries, e);
      }
    }
    if AllSatisfied(lock, m, importers, entries) {
      forall k, e: Edge | IsWritten(lock, m, importers, k, e) && Bundled(m, e.name)
        ensures WithoutPeers(e.value) == Some(Pin(m, e.name))
      {
        SatisfiedIsMet(lock, m, importers, turns, r, s, builds, required, entries, k, e);
      }
    }
  }
}
