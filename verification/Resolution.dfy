/**
 * The tree resolves every edge to the version the lockfile named: for every
 * derivation that succeeds, however many turns its worklist took.
 */
module Resolution {
  import opened Outcomes
  import opened Lockfiles
  import opened Layouts
  import opened LayoutInvariants
  import opened VisitInvariants
  import opened Derivations
  import opened Runs
  import opened Tops

  // ------------------------------------------------------ the invariant holds

  lemma GrownNodesAgree(lock: Lockfile, s: Tree, t: Tree)
    requires NodesAgree(lock, s) && Grew(lock, s, t) && Contexts(s) <= Contexts(t)
    ensures NodesAgree(lock, t)
  {
    forall l | l in t ensures EdgesMatch(t, l) && PeersOk(lock, t, l) {
      OtherNodeAgrees(lock, s, t, l);
    }
  }

  lemma GrownStaysFollowed(lock: Lockfile, s: Layout, t: Layout)
    requires AllFollowed(lock, s) && Grew(lock, s.tree, t.tree)
    requires Contexts(s.tree) <= Contexts(t.tree) && Visited(t) == Visited(s)
    ensures AllFollowed(lock, t)
  {
    forall j | j in Visited(t) ensures j.at in t.tree && Followed(lock, t.tree, j) {
      assert j in Visited(s) && SameEdges(s.tree, t.tree, j.at);
      FollowedStays(lock, s.tree, t.tree, j);
    }
  }

  lemma PlacingKeepsInv(lock: Lockfile, s: Layout, nearest: Location, key: Key, landing: Landing)
    requires Inv(lock, s) && Placing(lock, s, nearest, key, landing)
    ensures Inv(lock, landing.layout) && Visited(landing.layout) == Visited(s)
  {
    EnqueuedQueues(s, s, landing.layout, Item(landing.at, key));
    GrownNodesAgree(lock, s.tree, landing.layout.tree);
    GrownStaysFollowed(lock, s, landing.layout);
  }

  ghost function KeysIn(tree: Tree): set<Key> {
    set i | i in Contexts(tree) :: i.key
  }

  /** The key root edge `e` asks for, when it is not a bundled one. */
  ghost function KeyOf(lock: Lockfile, m: Manifest, importers: seq<string>, e: RootEdge): set<Key> {
    var version := ResolvedByImporters(lock, importers, e.name, e.range);
    if e.name in m.bundleDependencies || version.Refused? then {} else {Key(e.name, version.value)}
  }

  /** What the root holds agrees with the layout under it. */
  ghost predicate RootOk(lock: Lockfile, r: Rooted, keys: set<Key>) {
    && Inv(lock, r.layout) && Visited(r.layout) == {}
    && LandsIn(r.layout.tree, r.required) && LandsIn(r.layout.tree, r.optional)
    && KeysIn(r.layout.tree) == keys
    && forall l :: l in r.layout.tree ==> |l| == 1
  }

  lemma StillLandsIn(a: Tree, b: Tree, landed: map<string, Location>)
    requires a.Keys <= b.Keys && LandsIn(a, landed)
    ensures LandsIn(b, landed)
  {
  }

  lemma LandedKeys(s: Tree, t: Tree, i: Item)
    requires Contexts(t) == Contexts(s) + {i}
    ensures KeysIn(t) == KeysIn(s) + {i.key}
  {
    forall k ensures k in KeysIn(t) <==> k in KeysIn(s) + {i.key} {
      if k in KeysIn(s) { var j :| j in Contexts(s) && j.key == k; assert j in Contexts(t); }
      if k == i.key { assert i in Contexts(t); }
    }
  }

  lemma PlacingKeepsRoot(lock: Lockfile, r: Rooted, keys: set<Key>, key: Key, landing: Landing)
    requires RootOk(lock, r, keys) && Placing(lock, r.layout, [], key, landing)
    ensures RootOk(lock, r.(layout := landing.layout), keys + {key})
  {
    PlacingKeepsInv(lock, r.layout, [], key, landing);
    LandedKeys(r.layout.tree, landing.layout.tree, Item(landing.at, key));
    StillLandsIn(r.layout.tree, landing.layout.tree, r.required);
    StillLandsIn(r.layout.tree, landing.layout.tree, r.optional);
  }

  lemma RootKeeps(lock: Lockfile, m: Manifest, importers: seq<string>, r: Rooted, keys: set<Key>, e: RootEdge, next: Rooted)
    requires RootOk(lock, r, keys) && QueuedIsPlaced(r.layout)
    requires Root(lock, m, importers, r, e) == Ok(next)
    ensures RootOk(lock, next, keys + KeyOf(lock, m, importers, e))
  {
    if e.name !in m.bundleDependencies {
      var key := Key(e.name, ResolvedByImporters(lock, importers, e.name, e.range).value);
      var landing := Place(lock, r.layout, [], key, false).value;
      PlaceIsPlacing(lock, r.layout, [], key, false);
      PlacingKeepsRoot(lock, r, keys, key, landing);
      if e.optional {
        LandsInAlso(landing.layout.tree, r.optional, e.name, landing.at);
      } else {
        LandsInAlso(landing.layout.tree, r.required, e.name, landing.at);
      }
    } else {
      assert keys + {} == keys;
    }
  }

  ghost function KeysOfAll(lock: Lockfile, m: Manifest, importers: seq<string>, edges: seq<RootEdge>): set<Key> {
    if edges == [] then {} else KeyOf(lock, m, importers, edges[0]) + KeysOfAll(lock, m, importers, edges[1..])
  }

  lemma {:induction false} RootAllKeeps(lock: Lockfile, m: Manifest, importers: seq<string>, r: Rooted, keys: set<Key>,
                                        edges: seq<RootEdge>, next: Rooted)
    requires RootOk(lock, r, keys) && QueuedIsPlaced(r.layout)
    requires RootAll(lock, m, importers, r, edges) == Ok(next)
    ensures RootOk(lock, next, keys + KeysOfAll(lock, m, importers, edges))
    decreases |edges|
  {
    if edges == [] {
      assert keys + {} == keys;
    } else {
      var step := Root(lock, m, importers, r, edges[0]).value;
      var more := keys + KeyOf(lock, m, importers, edges[0]);
      RootKeeps(lock, m, importers, r, keys, edges[0], step);
      assert more + KeysOfAll(lock, m, importers, edges[1..]) == keys + KeysOfAll(lock, m, importers, edges);
      RootAllKeeps(lock, m, importers, step, more, edges[1..], next);
    }
  }

  lemma {:induction false} KeysOfAllAreTheRootKeys(lock: Lockfile, m: Manifest, importers: seq<string>, edges: seq<RootEdge>, k: Key)
    ensures k in KeysOfAll(lock, m, importers, edges) <==> exists e :: e in edges && k in KeyOf(lock, m, importers, e)
  {
    if edges != [] {
      KeysOfAllAreTheRootKeys(lock, m, importers, edges[1..], k);
    }
  }

  lemma AllKeysAreTheRootKeys(lock: Lockfile, m: Manifest, importers: seq<string>)
    ensures KeysOfAll(lock, m, importers, RootEdges(m)) == RootKeys(lock, m, importers)
  {
    var edges := RootEdges(m);
    forall k ensures k in KeysOfAll(lock, m, importers, edges) <==> k in RootKeys(lock, m, importers) {
      KeysOfAllAreTheRootKeys(lock, m, importers, edges, k);
    }
  }

  lemma BareIsOk(lock: Lockfile)
    ensures RootOk(lock, Bare, {})
  {
    assert Contexts(Bare.layout.tree) == {};
  }

  /** What the worklist starts from: a well-formed tree of exactly the keys the root asks for. */
  lemma BeginIsOk(lock: Lockfile, m: Manifest, importers: seq<string>, r: Rooted)
    requires Begin(lock, m, importers) == Ok(r)
    ensures RootOk(lock, r, RootKeys(lock, m, importers))
  {
    BareIsOk(lock);
    RootAllKeeps(lock, m, importers, Bare, {}, RootEdges(m), r);
    AllKeysAreTheRootKeys(lock, m, importers);
    assert {} + RootKeys(lock, m, importers) == RootKeys(lock, m, importers);
  }

  lemma BeginKeepsInv(lock: Lockfile, m: Manifest, importers: seq<string>, r: Rooted)
    requires Begin(lock, m, importers) == Ok(r)
    ensures Inv(lock, r.layout)
  {
    BeginIsOk(lock, m, importers, r);
  }

  /** What one turn may do to a layout, with everything it keeps. */
  ghost predicate Moves(lock: Lockfile, a: Layout, b: Layout) {
    && Inv(lock, a) && Inv(lock, b)
    && (Shaped(a.tree) ==> Shaped(b.tree))
    && if a.queue == [] then b == a else Turn(lock, a, b)
  }

  ghost function Turns(lock: Lockfile): (Layout, Layout) -> bool {
    (a, b) => Moves(lock, a, b)
  }

  lemma LastTurn(lock: Lockfile, s: Layout, turns: nat, t: Layout) returns (before: Layout)
    requires QueuedIsPlaced(s) && After(lock, s, turns) == Ok(t) && turns > 0
    ensures After(lock, s, turns - 1) == Ok(before) && QueuedIsPlaced(before)
    ensures Inv(lock, before) ==> Moves(lock, before, t)
  {
    before := After(lock, s, turns - 1).value;
    if Inv(lock, before) && before.queue != [] {
      VisitKeepsInv(lock, before, t);
      if Shaped(before.tree) { VisitKeepsShape(lock, before); }
    }
  }

  /** However many turns a layout took, the turns between are a run. */
  lemma {:induction false} AfterIsRun(lock: Lockfile, s: Layout, turns: nat, t: Layout) returns (trace: seq<Layout>)
    requires Inv(lock, s) && QueuedIsPlaced(s) && After(lock, s, turns) == Ok(t)
    ensures IsRun(Turns(lock), trace) && |trace| == turns + 1 && trace[0] == s && trace[turns] == t
    ensures Inv(lock, t)
  {
    if turns == 0 {
      trace := [s];
    } else {
      var before := LastTurn(lock, s, turns, t);
      trace := AfterIsRun(lock, s, turns - 1, before);
      LongerRun(Turns(lock), trace, t);
      trace := trace + [t];
    }
  }

  ghost function KeepsAll(first: Tree): (nat, Layout) -> bool {
    (i: nat, s: Layout) => Keeps(first, s.tree)
  }

  lemma KeepingIsKept(lock: Lockfile, first: Tree)
    ensures Kept(Turns(lock), KeepsAll(first))
  {
    forall i: nat, a, b | Turns(lock)(a, b) && KeepsAll(first)(i, a) ensures KeepsAll(first)(i + 1, b) {
      if a.queue != [] { KeepsIsTransitive(first, a.tree, b.tree); }
    }
  }

  /** Every turn of every run keeps the invariant, and overwrites nothing placed before it. */
  lemma AfterKeepsInv(lock: Lockfile, s: Layout, turns: nat, t: Layout)
    requires Inv(lock, s) && QueuedIsPlaced(s) && After(lock, s, turns) == Ok(t)
    ensures Inv(lock, t) && Keeps(s.tree, t.tree)
  {
    var trace := AfterIsRun(lock, s, turns, t);
    KeepingIsKept(lock, s.tree);
    HoldsAllAlong(Turns(lock), trace, KeepsAll(s.tree), turns);
  }

  // ------------------------------------------------------- what success means

  /** Nothing is waiting, so every pair has been visited. */
  lemma DerivedIsComplete(lock: Lockfile, m: Manifest, importers: seq<string>, turns: nat, r: Rooted, s: Layout)
    requires Derives(lock, m, importers, turns, r, s)
    ensures Inv(lock, s) && Keeps(r.layout.tree, s.tree) && Visited(s) == Contexts(s.tree)
  {
    BeginIsOk(lock, m, importers, r);
    AfterKeepsInv(lock, r.layout, turns, s);
    assert Waiting(s) == {};
  }

  ghost function Present(r: Rooted, s: Layout): set<Location> {
    s.tree.Keys + r.inBundle.Keys
  }

  /** Node, walking up from the node at `l`, finds `name` at exactly `version`. */
  ghost predicate Finds(r: Rooted, s: Layout, l: Location, name: string, version: string) {
    exists found :: IsNearest(Present(r, s), l, name, found) && found in s.tree && s.tree[found].version == version
  }

  lemma RecordedIsFound(r: Rooted, s: Layout, l: Location, landed: map<string, Location>, versions: map<string, string>, name: string)
    requires Resolves(Present(r, s), l, landed) && Records(s.tree, landed, versions) && name in versions
    ensures Finds(r, s, l, name, versions[name])
  {
    WalkIsNearest(Present(r, s), l, name);
    assert IsNearest(Present(r, s), l, name, landed[name]);
  }

  /** The entry a snapshot key is followed with. */
  ghost predicate HasSnapshotEdge(lock: Lockfile, s: Layout, l: Location, k: Key, e: Edge) {
    && l in s.tree && k in s.tree[l].contexts
    && Spell(k.name, k.value.Text()) in lock.snapshots
    && e in Edges(lock.snapshots[Spell(k.name, k.value.Text())])
  }

  /**
   * The law the derivation is for. At every placed node, for every snapshot it
   * was reached through and every edge of that snapshot that is not a peer's,
   * Node's walk over the finished tree finds a copy at exactly the version the
   * snapshot names.
   */
  lemma EveryEdgeResolves(lock: Lockfile, m: Manifest, importers: seq<string>, turns: nat, r: Rooted, s: Layout,
                          l: Location, k: Key, e: Edge)
    requires Derives(lock, m, importers, turns, r, s) && HasSnapshotEdge(lock, s, l, k, e)
    ensures var known := PackageOf(lock, PackageAt(s.tree, l));
            && known.Ok?
            && (e.name !in known.value.peers ==>
                  WithoutPeers(e.value).Some? && Finds(r, s, l, e.name, WithoutPeers(e.value).value))
  {
    DerivedIsComplete(lock, m, importers, turns, r, s);
    ContextsOf(s.tree, l, k);
    assert Item(l, k) in Visited(s);
    assert Followed(lock, s.tree, Item(l, k));
    var known := PackageOf(lock, PackageAt(s.tree, l)).value;
    var resolved := s.tree[l].resolved.value;
    assert Held(known, s.tree, l, resolved, e);
    assert EdgesMatch(s.tree, l);
    if e.name !in known.peers {
      if e.optional {
        RecordedIsFound(r, s, l, s.tree[l].optional, resolved.optionalDependencies, e.name);
      } else {
        RecordedIsFound(r, s, l, s.tree[l].required, resolved.dependencies, e.name);
      }
    }
  }

  /** Every snapshot a placed node was reached through is in the lockfile. */
  lemma EverySnapshotIsThere(lock: Lockfile, m: Manifest, importers: seq<string>, turns: nat, r: Rooted, s: Layout, l: Location, k: Key)
    requires Derives(lock, m, importers, turns, r, s) && l in s.tree && k in s.tree[l].contexts
    ensures Spell(k.name, k.value.Text()) in lock.snapshots && Spells(k, PackageAt(s.tree, l))
  {
    DerivedIsComplete(lock, m, importers, turns, r, s);
    ContextsOf(s.tree, l, k);
    assert Item(l, k) in Visited(s);
    assert Followed(lock, s.tree, Item(l, k));
    assert NodeOk(lock, s.tree, l);
  }

  /** A version some snapshot of the node at `l` asks of its required peer `name`. */
  ghost predicate AsksOfPeer(lock: Lockfile, s: Layout, l: Location, name: string, version: string) {
    exists k, e: Edge ::
      HasSnapshotEdge(lock, s, l, k, e) && e.name == name && WithoutPeers(e.value) == Some(version) && Follows(lock, k, e)
  }

  /**
   * A required peer is found from the node's owner, at a version one of the
   * node's snapshots asks for. Two contexts may overwrite one another's peer,
   * so the claim is about the one recorded last.
   */
  lemma EveryPeerResolves(lock: Lockfile, m: Manifest, importers: seq<string>, turns: nat, r: Rooted, s: Layout,
                          l: Location, k: Key, e: Edge)
    requires Derives(lock, m, importers, turns, r, s) && HasSnapshotEdge(lock, s, l, k, e)
    requires PackageOf(lock, PackageAt(s.tree, l)).Ok?
    requires e.name in PackageOf(lock, PackageAt(s.tree, l)).value.peers
    requires e.name !in PackageOf(lock, PackageAt(s.tree, l)).value.optionalPeers
    ensures exists version :: Finds(r, s, Owner(l), e.name, version) && AsksOfPeer(lock, s, l, e.name, version)
  {
    DerivedIsComplete(lock, m, importers, turns, r, s);
    ContextsOf(s.tree, l, k);
    assert Item(l, k) in Visited(s);
    assert Followed(lock, s.tree, Item(l, k));
    assert Held(PackageOf(lock, PackageAt(s.tree, l)).value, s.tree, l, s.tree[l].resolved.value, e);
    assert PeersOk(lock, s.tree, l) && PeerOk(lock, s.tree, l, e.name);
    var landed := s.tree[l].peers[e.name];
    var k', e': Edge :| k' in s.tree[l].contexts && Follows(lock, k', e') && e'.name == e.name
                        && Item(landed, e'.Target()) in Contexts(s.tree);
    assert NodeOk(lock, s.tree, landed);
    WalkIsNearest(Present(r, s), Owner(l), e.name);
    assert IsNearest(Present(r, s), Owner(l), e.name, landed);
    var version := s.tree[landed].version;
    assert HasSnapshotEdge(lock, s, l, k', e');
    assert Finds(r, s, Owner(l), e.name, version) && AsksOfPeer(lock, s, l, e.name, version);
  }

  lemma FindsOne(r: Rooted, s: Layout, l: Location, name: string, v: string, v': string)
    requires Finds(r, s, l, name, v) && Finds(r, s, l, name, v')
    ensures v == v'
  {
    WalkIsNearest(Present(r, s), l, name);
  }

  /** Nothing about a peer context but its peers may differ: one directory has one set of versions. */
  lemma ContextsAgreeOnEdges(lock: Lockfile, m: Manifest, importers: seq<string>, turns: nat, r: Rooted, s: Layout,
                             l: Location, k: Key, k': Key, e: Edge, e': Edge)
    requires Derives(lock, m, importers, turns, r, s)
    requires HasSnapshotEdge(lock, s, l, k, e) && HasSnapshotEdge(lock, s, l, k', e')
    requires e.name == e'.name
    ensures var known := PackageOf(lock, PackageAt(s.tree, l));
            known.Ok? && (e.name !in known.value.peers ==> WithoutPeers(e.value) == WithoutPeers(e'.value))
  {
    EveryEdgeResolves(lock, m, importers, turns, r, s, l, k, e);
    EveryEdgeResolves(lock, m, importers, turns, r, s, l, k', e');
    if e.name !in PackageOf(lock, PackageAt(s.tree, l)).value.peers {
      FindsOne(r, s, l, e.name, WithoutPeers(e.value).value, WithoutPeers(e'.value).value);
    }
  }
}
