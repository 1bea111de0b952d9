/**
 * Where the versions of a node's edges come from: each is the version some
 * edge names, in a snapshot the node was reached through.
 */
module Sources {
  import opened Outcomes
  import opened Lockfiles
  import opened Layouts
  import opened LayoutInvariants
  import opened VisitInvariants
  import opened Derivations
  import opened Resolution

  /** An edge that is placed for `k` itself, and so written with it: not skipped, and no peer. */
  predicate IsOwnEdge(lock: Lockfile, k: Key, e: Edge) {
    Follows(lock, k, e) && e.name !in PackageOf(lock, Package(k.name, WithoutPeers(k.value).value)).value.peers
  }

  /** Every version in `r` is one that an own edge of `k` names, in the section it is in. */
  ghost predicate ComesFrom(lock: Lockfile, k: Key, r: Resolved) {
    && (forall n :: n in r.dependencies ==> Names(lock, k, n, r.dependencies[n], false))
    && (forall n :: n in r.optionalDependencies ==> Names(lock, k, n, r.optionalDependencies[n], true))
  }

  ghost predicate Names(lock: Lockfile, k: Key, name: string, version: string, optional: bool) {
    exists e: Edge :: IsOwnEdge(lock, k, e) && e.name == name && WithoutPeers(e.value) == Some(version) && e.optional == optional
  }

  /** Every own edge of `k` is in `r`, in its section and at its version. */
  ghost predicate Covers(lock: Lockfile, k: Key, r: Resolved) {
    forall e: Edge :: IsOwnEdge(lock, k, e) ==> VersionFor(r, e).Some? && VersionFor(r, e) == WithoutPeers(e.value)
  }

  /** `r` is exactly what the own edges of `k` ask for. */
  ghost predicate IsOf(lock: Lockfile, k: Key, r: Resolved) {
    ComesFrom(lock, k, r) && Covers(lock, k, r)
  }

  ghost predicate IsSourced(lock: Lockfile, node: Placed) {
    node.resolved.Some? ==> exists k :: k in node.contexts && IsOf(lock, k, node.resolved.value)
  }

  ghost predicate AllSourced(lock: Lockfile, tree: Tree) {
    forall l :: l in tree ==> IsSourced(lock, tree[l])
  }

  /** The nodes of `a` are in `b` with the versions of their edges as they were. */
  ghost predicate KeepsResolved(a: Tree, b: Tree) {
    forall l :: l in b && b[l].resolved.Some? ==>
      l in a && a[l].resolved == b[l].resolved && a[l].contexts <= b[l].contexts
  }

  lemma StaySourced(lock: Lockfile, a: Tree, b: Tree)
    requires AllSourced(lock, a) && KeepsResolved(a, b)
    ensures AllSourced(lock, b)
  {
    forall l | l in b ensures IsSourced(lock, b[l]) {
      if b[l].resolved.Some? {
        assert IsSourced(lock, a[l]);
        var k :| k in a[l].contexts && IsOf(lock, k, a[l].resolved.value);
        assert k in b[l].contexts;
      }
    }
  }

  lemma PlacingStaysSourced(lock: Lockfile, s: Layout, requester: Location, key: Key, peer: bool)
    requires AllSourced(lock, s.tree) && Place(lock, s, requester, key, peer).Ok?
    ensures AllSourced(lock, Place(lock, s, requester, key, peer).value.layout.tree)
  {
    StaySourced(lock, s.tree, Place(lock, s, requester, key, peer).value.layout.tree);
  }

  lemma RecordingStaysSourced(lock: Lockfile, s: Layout, at: Location, e: Edge, landed: Location)
    requires AllSourced(lock, s.tree) && at in s.tree
    ensures AllSourced(lock, RecordPeer(s, at, e.name, landed).tree)
    ensures AllSourced(lock, RecordEdge(s, at, e, landed).tree)
  {
    StaySourced(lock, s.tree, RecordPeer(s, at, e.name, landed).tree);
    StaySourced(lock, s.tree, RecordEdge(s, at, e, landed).tree);
  }

  lemma RecordedComesFrom(lock: Lockfile, k: Key, r: Resolved, e: Edge, version: string)
    requires ComesFrom(lock, k, r) && IsOwnEdge(lock, k, e) && WithoutPeers(e.value) == Some(version)
    ensures ComesFrom(lock, k, RecordVersion(r, e, version))
  {
    assert Names(lock, k, e.name, version, e.optional);
  }

  lemma PlacedVersion(lock: Lockfile, s: Layout, at: Location, key: Key, landing: Landing)
    requires Place(lock, s, at, key, false) == Ok(landing)
    ensures landing.at in landing.layout.tree && WithoutPeers(key.value) == Some(landing.layout.tree[landing.at].version)
  {
    PlacedIsWhatNodeFinds(lock, s, at, key, false);
  }

  lemma FollowingPeerStaysSourced(lock: Lockfile, at: Location, s: Layout, e: Edge, landing: Landing)
    requires at in s.tree && at in landing.layout.tree && AllSourced(lock, s.tree)
    requires Place(lock, s, at, e.Target(), true) == Ok(landing)
    ensures AllSourced(lock, RecordPeer(landing.layout, at, e.name, landing.at).tree)
  {
    PlacingStaysSourced(lock, s, at, e.Target(), true);
    RecordingStaysSourced(lock, landing.layout, at, e, landing.at);
  }

  lemma FollowingOwnStaysSourced(lock: Lockfile, at: Location, k: Key, p: Progress, e: Edge, landing: Landing)
    requires at in p.layout.tree && at in landing.layout.tree && AllSourced(lock, p.layout.tree) && ComesFrom(lock, k, p.resolved)
    requires IsOwnEdge(lock, k, e) && Place(lock, p.layout, at, e.Target(), false) == Ok(landing)
    ensures AllSourced(lock, RecordEdge(landing.layout, at, e, landing.at).tree)
    ensures landing.at in landing.layout.tree
    ensures ComesFrom(lock, k, RecordVersion(p.resolved, e, landing.layout.tree[landing.at].version))
  {
    PlacingStaysSourced(lock, p.layout, at, e.Target(), false);
    RecordingStaysSourced(lock, landing.layout, at, e, landing.at);
    PlacedVersion(lock, p.layout, at, e.Target(), landing);
    RecordedComesFrom(lock, k, p.resolved, e, landing.layout.tree[landing.at].version);
  }

  /** `known` is what the lockfile says of the package `k` resolves. */
  ghost predicate IsKnown(lock: Lockfile, k: Key, known: PackageEntry) {
    WithoutPeers(k.value).Some? && PackageOf(lock, Package(k.name, WithoutPeers(k.value).value)) == Ok(known)
  }

  lemma FollowingStaysSourced(lock: Lockfile, known: PackageEntry, at: Location, k: Key, p: Progress, e: Edge, q: Progress)
    requires at in p.layout.tree && QueuedIsPlaced(p.layout) && AllSourced(lock, p.layout.tree)
    requires IsKnown(lock, k, known) && (Skipped(known, e.name) || Follows(lock, k, e))
    requires Follow(lock, known, at, p, e) == Ok(q) && ComesFrom(lock, k, p.resolved)
    ensures AllSourced(lock, q.layout.tree) && ComesFrom(lock, k, q.resolved)
  {
    if !Skipped(known, e.name) {
      var landing := FollowLands(lock, known, at, p, e, q);
      if e.name in known.peers {
        FollowingPeerStaysSourced(lock, at, p.layout, e, landing);
      } else {
        FollowingOwnStaysSourced(lock, at, k, p, e, landing);
      }
    }
  }

  lemma {:induction false} FollowingAllStaysSourced(lock: Lockfile, known: PackageEntry, at: Location, k: Key, p: Progress,
                                                    edges: seq<Edge>, q: Progress)
    requires at in p.layout.tree && QueuedIsPlaced(p.layout) && AllSourced(lock, p.layout.tree)
    requires IsKnown(lock, k, known)
    requires forall e :: e in edges ==> Skipped(known, e.name) || Follows(lock, k, e)
    requires FollowAll(lock, known, at, p, edges) == Ok(q) && ComesFrom(lock, k, p.resolved)
    ensures AllSourced(lock, q.layout.tree) && ComesFrom(lock, k, q.resolved)
    decreases |edges|
  {
    if edges != [] {
      var next := Follow(lock, known, at, p, edges[0]).value;
      FollowingStaysSourced(lock, known, at, k, p, edges[0], next);
      FollowingAllStaysSourced(lock, known, at, k, next, edges[1..], q);
    }
  }

  lemma SettlingStaysSourced(lock: Lockfile, k: Key, p: Progress, at: Location, t: Layout)
    requires at in p.layout.tree && Settle(p, at) == Ok(t)
    requires AllSourced(lock, p.layout.tree) && IsOf(lock, k, p.resolved) && k in p.layout.tree[at].contexts
    ensures AllSourced(lock, t.tree)
  {
    forall l | l in t.tree ensures IsSourced(lock, t.tree[l]) {
      if l != at { assert IsSourced(lock, p.layout.tree[l]); }
    }
  }

  lemma HeadIsThere(lock: Lockfile, s: Layout)
    requires Inv(lock, s) && s.queue != []
    ensures var item := s.queue[0];
            && item.at in s.tree && item.key in s.tree[item.at].contexts
            && PackageOf(lock, PackageAt(s.tree, item.at)).Ok?
            && IsKnown(lock, item.key, PackageOf(lock, PackageAt(s.tree, item.at)).value)
  {
    assert s.queue[0] in Waiting(s);
    ContextsOf(s.tree, s.queue[0].at, s.queue[0].key);
    assert NodeOk(lock, s.tree, s.queue[0].at);
  }

  lemma EdgesAreFollowed(lock: Lockfile, k: Key, known: PackageEntry, e: Edge)
    requires IsKnown(lock, k, known) && Spell(k.name, k.value.Text()) in lock.snapshots
    requires e in Edges(lock.snapshots[Spell(k.name, k.value.Text())])
    ensures Skipped(known, e.name) || Follows(lock, k, e)
  {
  }

  lemma NotedIsCovered(lock: Lockfile, k: Key, known: PackageEntry, tree: Tree, item: Item, r: Resolved)
    requires IsKnown(lock, k, known) && Spell(k.name, k.value.Text()) in lock.snapshots && item.at in tree && item.key == k
    requires Notes(known, tree, item, r, Edges(lock.snapshots[Spell(k.name, k.value.Text())]))
    ensures Covers(lock, k, r)
  {
    forall e: Edge | IsOwnEdge(lock, k, e) ensures VersionFor(r, e).Some? && VersionFor(r, e) == WithoutPeers(e.value) {
      assert Held(known, tree, item.at, r, e);
    }
  }

  /** What following the head's edges has resolved is exactly what they ask for. */
  lemma HeadIsSourced(lock: Lockfile, s: Layout, known: PackageEntry, q: Progress)
    requires Inv(lock, s) && s.queue != [] && QueuedIsPlaced(s) && AllSourced(lock, s.tree) && FollowsTo(lock, s, known, q)
    ensures AllSourced(lock, q.layout.tree) && IsOf(lock, s.queue[0].key, q.resolved)
    ensures s.queue[0].at in q.layout.tree && s.queue[0].key in q.layout.tree[s.queue[0].at].contexts
  {
    var item := s.queue[0];
    var edges := Edges(lock.snapshots[Spell(item.key.name, item.key.value.Text())]);
    HeadIsThere(lock, s);
    forall e | e in edges ensures Skipped(known, e.name) || Follows(lock, item.key, e) {
      EdgesAreFollowed(lock, item.key, known, e);
    }
    FollowingAllStaysSourced(lock, known, item.at, item.key, Progress(Popped(s), Resolved(map[], map[])), edges, q);
    EdgesAreNoted(lock, s, known, q);
    NotedIsCovered(lock, item.key, known, q.layout.tree, item, q.resolved);
  }

  lemma VisitingStaysSourced(lock: Lockfile, s: Layout, t: Layout)
    requires Inv(lock, s) && s.queue != [] && QueuedIsPlaced(s) && AllSourced(lock, s.tree)
    requires Visit(lock, s) == Ok(t)
    ensures AllSourced(lock, t.tree)
  {
    var known, q := TurnFollows(lock, s, t);
    HeadIsSourced(lock, s, known, q);
    SettlingStaysSourced(lock, s.queue[0].key, q, s.queue[0].at, t);
  }

  // ------------------------------------------------------- why a turn is refused

  /** Two snapshots whose own edges ask for different things. */
  ghost predicate Disagree(lock: Lockfile, k: Key, k': Key) {
    exists name, version, optional :: Names(lock, k, name, version, optional) != Names(lock, k', name, version, optional)
  }

  predicate Has(section: map<string, string>, name: string, version: string) {
    name in section && section[name] == version
  }

  lemma NamedExactly(lock: Lockfile, k: Key, r: Resolved, name: string, version: string)
    requires IsOf(lock, k, r)
    ensures Names(lock, k, name, version, false) <==> Has(r.dependencies, name, version)
    ensures Names(lock, k, name, version, true) <==> Has(r.optionalDependencies, name, version)
  {
  }

  lemma AgreeingIsTheSame(lock: Lockfile, k: Key, r: Resolved, k': Key, r': Resolved)
    requires IsOf(lock, k, r) && IsOf(lock, k', r') && !Disagree(lock, k, k')
    ensures r == r'
  {
    forall name, version
      ensures Has(r.dependencies, name, version) <==> Has(r'.dependencies, name, version)
      ensures Has(r.optionalDependencies, name, version) <==> Has(r'.optionalDependencies, name, version)
    {
      NamedExactly(lock, k, r, name, version);
      NamedExactly(lock, k', r', name, version);
    }
    SameMap(r.dependencies, r'.dependencies);
    SameMap(r.optionalDependencies, r'.optionalDependencies);
  }

  lemma SameMap(a: map<string, string>, b: map<string, string>)
    requires forall n, v :: Has(a, n, v) <==> Has(b, n, v)
    ensures a == b
  {
    forall n ensures (n in a <==> n in b) && (n in a ==> a[n] == b[n]) {
      if n in a { assert Has(a, n, a[n]); }
      if n in b { assert Has(b, n, b[n]); }
    }
  }

  /** Contexts are refused only when two of them ask for different things of their own. */
  lemma RefusedContextsDisagree(lock: Lockfile, s: Layout, known: PackageEntry, q: Progress)
    requires Inv(lock, s) && s.queue != [] && QueuedIsPlaced(s) && AllSourced(lock, s.tree) && FollowsTo(lock, s, known, q)
    requires s.queue[0].at in q.layout.tree && Settle(q, s.queue[0].at).Refused?
    ensures exists k :: k in q.layout.tree[s.queue[0].at].contexts && Disagree(lock, s.queue[0].key, k)
  {
    HeadIsSourced(lock, s, known, q);
    var node := q.layout.tree[s.queue[0].at];
    assert IsSourced(lock, node);
    var k :| k in node.contexts && IsOf(lock, k, node.resolved.value);
    if !Disagree(lock, s.queue[0].key, k) {
      AgreeingIsTheSame(lock, s.queue[0].key, q.resolved, k, node.resolved.value);
    }
  }

  /** With the edges before it followed, edge `n` is no optional peer's and cannot be placed. */
  ghost predicate StopsAt(lock: Lockfile, known: PackageEntry, at: Location, p: Progress, edges: seq<Edge>, n: nat)
    requires at in p.layout.tree && QueuedIsPlaced(p.layout) && n < |edges|
  {
    var e, before := edges[n], FollowAll(lock, known, at, p, edges[..n]);
    && before.Ok? && !(e.name in known.peers && e.name in known.optionalPeers)
    && Place(lock, before.value.layout, at, e.Target(), e.name in known.peers).Refused?
  }

  lemma {:induction false} RefusedStopsSomewhere(lock: Lockfile, known: PackageEntry, at: Location, p: Progress, edges: seq<Edge>)
    returns (n: nat)
    requires at in p.layout.tree && QueuedIsPlaced(p.layout) && FollowAll(lock, known, at, p, edges).Refused?
    ensures n < |edges| && StopsAt(lock, known, at, p, edges, n)
    decreases |edges|
  {
    if Follow(lock, known, at, p, edges[0]).Ok? {
      var next := Follow(lock, known, at, p, edges[0]).value;
      n := RefusedStopsSomewhere(lock, known, at, next, edges[1..]);
      assert edges[..n + 1][0] == edges[0] && edges[..n + 1][1..] == edges[1..][..n];
      n := n + 1;
    } else {
      n := 0;
      assert edges[..0] == [];
    }
  }

  /**
   * A turn is refused only when the lockfile has no snapshot for the key, when
   * an edge cannot be placed after those before it, or when two contexts ask for
   * different things.
   */
  lemma TurnsAreRefusedForAReason(lock: Lockfile, s: Layout)
    requires Inv(lock, s) && s.queue != [] && QueuedIsPlaced(s) && AllSourced(lock, s.tree) && Visit(lock, s).Refused?
    ensures var item := s.queue[0];
            var spelled := item.key.name + "@" + item.key.value.Text();
            var known := PackageOf(lock, PackageAt(s.tree, item.at));
            && known.Ok?
            && (|| spelled !in lock.snapshots
                || (exists n: nat :: n < |Edges(lock.snapshots[spelled])| &&
                      StopsAt(lock, known.value, item.at, Progress(Popped(s), Resolved(map[], map[])), Edges(lock.snapshots[spelled]), n))
                || exists k: Key :: k.name == item.key.name && Disagree(lock, item.key, k))
  {
    var item := s.queue[0];
    HeadIsThere(lock, s);
    var known := PackageOf(lock, PackageAt(s.tree, item.at)).value;
    var spelled := Spell(item.key.name, item.key.value.Text());
    if spelled in lock.snapshots {
      var start := Progress(Popped(s), Resolved(map[], map[]));
      var followed := FollowAll(lock, known, item.at, start, Edges(lock.snapshots[spelled]));
      if followed.Refused? {
        var n := RefusedStopsSomewhere(lock, known, item.at, start, Edges(lock.snapshots[spelled]));
      } else {
        EdgesAreNoted(lock, s, known, followed.value);
        RefusedContextsDisagree(lock, s, known, followed.value);
        var k :| k in followed.value.layout.tree[item.at].contexts && Disagree(lock, item.key, k);
        assert NodeOk(lock, followed.value.layout.tree, item.at) && NodeOk(lock, s.tree, item.at);
      }
    }
  }

  /** After any number of turns every version written is one an own edge of a snapshot names. */
  lemma {:induction false} AfterIsSourced(lock: Lockfile, s: Layout, turns: nat, t: Layout)
    requires Inv(lock, s) && QueuedIsPlaced(s) && AllSourced(lock, s.tree) && After(lock, s, turns) == Ok(t)
    ensures AllSourced(lock, t.tree)
  {
    if turns > 0 {
      var before := LastTurn(lock, s, turns, t);
      AfterKeepsInv(lock, s, turns - 1, before);
      AfterIsSourced(lock, s, turns - 1, before);
      if before.queue != [] { VisitingStaysSourced(lock, before, t); }
    }
  }

  lemma {:induction false} RootAllStaysSourced(lock: Lockfile, m: Manifest, importers: seq<string>, r: Rooted, edges: seq<RootEdge>)
    requires QueuedIsPlaced(r.layout) && AllSourced(lock, r.layout.tree) && RootAll(lock, m, importers, r, edges).Ok?
    ensures AllSourced(lock, RootAll(lock, m, importers, r, edges).value.layout.tree)
    decreases |edges|
  {
    if edges != [] {
      var e := edges[0];
      if e.name !in m.bundleDependencies {
        PlacingStaysSourced(lock, r.layout, [], Key(e.name, ResolvedByImporters(lock, importers, e.name, e.range).value), false);
      }
      RootAllStaysSourced(lock, m, importers, Root(lock, m, importers, r, e).value, edges[1..]);
    }
  }

  /** So it is in whatever is derived. */
  lemma DerivedIsSourced(lock: Lockfile, m: Manifest, importers: seq<string>, turns: nat, r: Rooted, s: Layout)
    requires Begin(lock, m, importers) == Ok(r) && After(lock, r.layout, turns) == Ok(s)
    ensures AllSourced(lock, s.tree)
  {
    BeginKeepsInv(lock, m, importers, r);
    RootAllStaysSourced(lock, m, importers, Bare, RootEdges(m));
    AfterIsSourced(lock, r.layout, turns, s);
  }
}
