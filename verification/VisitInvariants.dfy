/**
 * One turn of the worklist keeps the layout invariant: the edges of the
 * visited pair are followed one at a time, and each step keeps what the steps
 * before it recorded.
 */
module VisitInvariants {
  import opened Outcomes
  import opened Lockfiles
  import opened Layouts
  import opened LayoutInvariants

  // ------------------------------------------------- part-way through a node

  /** `t` grew out of `s`, and only the node at `at` has had edges recorded. */
  ghost predicate Grown(lock: Lockfile, s: Layout, at: Location, t: Layout) {
    && at in s.tree
    && WellFormed(lock, t.tree)
    && Keeps(s.tree, t.tree)
    && (forall l :: l in t.tree && l != at ==> SameEdges(s.tree, t.tree, l))
    && t.tree[at].resolved == s.tree[at].resolved
  }

  /** Everything new is waiting, and nothing else is. */
  ghost predicate Queued(s: Layout, t: Layout) {
    && QueueOk(t)
    && Contexts(s.tree) <= Contexts(t.tree)
    && Visited(t) == Visited(s)
  }

  /** Everything new is an edge of the visited key, one level further down at most. */
  ghost predicate Stems(lock: Lockfile, s: Layout, item: Item, t: Layout) {
    && (forall i :: i in Contexts(t.tree) && i !in Contexts(s.tree) ==> IsEdgeOf(lock, item.key, i.key))
    && (forall l :: l in t.tree && l !in s.tree ==> |l| <= |item.at| + 1 && (Owner(l) == [] || Owner(l) in s.tree))
  }

  ghost predicate IsEdgeOf(lock: Lockfile, k: Key, target: Key) {
    exists e: Edge :: Follows(lock, k, e) && e.Target() == target
  }

  /** `now` is `before` with the names of `versions` pointed at those versions. */
  ghost predicate Overlaid(tree: Tree, before: map<string, Location>, now: map<string, Location>, versions: map<string, string>) {
    && now.Keys == before.Keys + versions.Keys
    && forall n :: n in versions ==> now[n] in tree && tree[now[n]].version == versions[n]
  }

  ghost predicate Recorded(lock: Lockfile, s: Layout, at: Location, p: Progress)
    requires at in s.tree && at in p.layout.tree
  {
    var tree := p.layout.tree;
    && Overlaid(tree, s.tree[at].required, tree[at].required, p.resolved.dependencies)
    && Overlaid(tree, s.tree[at].optional, tree[at].optional, p.resolved.optionalDependencies)
    && s.tree[at].peers.Keys <= tree[at].peers.Keys
    && PeersOk(lock, tree, at)
  }

  /** Nothing is recorded that is not one of the edges in `done`. */
  ghost predicate OnlyFrom(r: Resolved, done: seq<Edge>) {
    && (forall n :: n in r.dependencies ==> exists e :: e in done && e.name == n && !e.optional)
    && (forall n :: n in r.optionalDependencies ==> exists e :: e in done && e.name == n && e.optional)
  }

  // -------------------------------------------------------- recording an edge

  /** `node` is the one at `at` with other edges recorded, all of them in the tree. */
  ghost predicate Rewires(tree: Tree, at: Location, node: Placed) {
    && at in tree
    && node.name == tree[at].name && node.version == tree[at].version
    && node.contexts == tree[at].contexts && node.resolved == tree[at].resolved
    && LandsIn(tree, node.required) && LandsIn(tree, node.optional) && LandsIn(tree, node.peers)
  }

  lemma RewiringKeeps(lock: Lockfile, tree: Tree, at: Location, node: Placed)
    requires WellFormed(lock, tree) && Rewires(tree, at, node)
    ensures WellFormed(lock, tree[at := node])
    ensures Contexts(tree[at := node]) == Contexts(tree)
    ensures Keeps(tree, tree[at := node])
  {
    var after := tree[at := node];
    assert PackageAt(after, at) == PackageAt(tree, at);
    assert NodeOk(lock, tree, at);
    assert NodeOk(lock, after, at);
    WriteStaysWellFormed(lock, tree, at, node);
    var k :| k in node.contexts;
    assert node.contexts == tree[at].contexts + {k};
    ContextsAfter(tree, at, node, k);
    ContextsOf(tree, at, k);
    assert Contexts(tree) + {Item(at, k)} == Contexts(tree);
  }

  lemma KeepsIsTransitive(a: Tree, b: Tree, c: Tree)
    requires Keeps(a, b) && Keeps(b, c)
    ensures Keeps(a, c)
  {
  }

  lemma EdgesStaySame(s: Tree, t: Tree, u: Tree, at: Location, v: Tree)
    requires s.Keys <= t.Keys <= u.Keys && at in u && at in v && v == u[at := v[at]]
    requires forall l :: l in t && l != at ==> SameEdges(s, t, l)
    requires forall l :: l in u ==> SameEdges(t, u, l)
    ensures forall l :: l in v && l != at ==> SameEdges(s, v, l)
  {
  }

  lemma RewiredGrows(lock: Lockfile, s: Layout, at: Location, t: Layout, u: Layout, node: Placed)
    requires Grown(lock, s, at, t) && Grew(lock, t.tree, u.tree)
    requires Rewires(u.tree, at, node)
    ensures Grown(lock, s, at, u.(tree := u.tree[at := node]))
  {
    RewiringKeeps(lock, u.tree, at, node);
    KeepsIsTransitive(s.tree, t.tree, u.tree);
    KeepsIsTransitive(s.tree, u.tree, u.tree[at := node]);
    assert SameEdges(t.tree, u.tree, at);
    EdgesStaySame(s.tree, t.tree, u.tree, at, u.tree[at := node]);
  }

  lemma EnqueuedQueues(s: Layout, t: Layout, u: Layout, i: Item)
    requires Queued(s, t) && Enqueued(t, u, i)
    ensures Queued(s, u)
  {
    if i in Contexts(t.tree) {
      assert u.queue == t.queue;
      assert Contexts(u.tree) == Contexts(t.tree);
    } else {
      assert u.queue == t.queue + [i];
      assert i !in Waiting(t);
      assert Waiting(u) == Waiting(t) + {i};
    }
  }

  lemma RewiredQueues(lock: Lockfile, s: Layout, u: Layout, at: Location, node: Placed)
    requires Queued(s, u) && WellFormed(lock, u.tree) && Rewires(u.tree, at, node)
    ensures Queued(s, u.(tree := u.tree[at := node]))
  {
    RewiringKeeps(lock, u.tree, at, node);
    assert Waiting(u.(tree := u.tree[at := node])) == Waiting(u);
  }

  lemma LandedStems(lock: Lockfile, s: Layout, item: Item, t: Layout, nearest: Location, e: Edge, landing: Landing)
    requires Stems(lock, s, item, t) && Follows(lock, item.key, e)
    requires nearest == [] || nearest in s.tree
    requires |nearest| <= |item.at|
    requires Landed(t.tree, landing.layout.tree, nearest, e.Target(), landing.at)
    requires Enqueued(t, landing.layout, Item(landing.at, e.Target()))
    ensures Stems(lock, s, item, landing.layout)
  {
    assert IsEdgeOf(lock, item.key, e.Target());
  }

  lemma RewiredStems(lock: Lockfile, s: Layout, item: Item, u: Layout, node: Placed)
    requires Stems(lock, s, item, u) && WellFormed(lock, u.tree) && Rewires(u.tree, item.at, node)
    ensures Stems(lock, s, item, u.(tree := u.tree[item.at := node]))
  {
    RewiringKeeps(lock, u.tree, item.at, node);
  }

  // ------------------------------------------------- what has been recorded

  lemma PeerStaysOk(lock: Lockfile, a: Tree, b: Tree, l: Location, n: string)
    requires l in a && l in b && a[l].contexts <= b[l].contexts && Contexts(a) <= Contexts(b)
    requires n in a[l].peers && n in b[l].peers && a[l].peers[n] == b[l].peers[n]
    requires PeerOk(lock, a, l, n)
    ensures PeerOk(lock, b, l, n)
  {
  }

  lemma PeersStayOk(lock: Lockfile, a: Tree, b: Tree, l: Location)
    requires l in a && l in b && a[l].contexts <= b[l].contexts && Contexts(a) <= Contexts(b)
    requires a[l].peers == b[l].peers
    requires PeersOk(lock, a, l)
    ensures PeersOk(lock, b, l)
  {
    forall n | n in b[l].peers ensures PeerOk(lock, b, l, n) {
      PeerStaysOk(lock, a, b, l, n);
    }
  }

  lemma StaysOverlaid(a: Tree, b: Tree, before: map<string, Location>, now: map<string, Location>, versions: map<string, string>)
    requires Keeps(a, b) && Overlaid(a, before, now, versions)
    ensures Overlaid(b, before, now, versions)
  {
  }

  lemma StaysHeld(known: PackageEntry, a: Tree, b: Tree, l: Location, r: Resolved, r': Resolved, e: Edge)
    requires l in a && l in b && Contexts(a) <= Contexts(b)
    requires a[l].peers.Keys <= b[l].peers.Keys
    requires VersionFor(r, e).Some? ==> VersionFor(r', e) == VersionFor(r, e)
    requires Held(known, a, l, r, e)
    ensures Held(known, b, l, r', e)
  {
  }

  lemma LandsInAlso(tree: Tree, landed: map<string, Location>, n: string, l: Location)
    requires LandsIn(tree, landed) && l in tree && l != [] && Last(l) == n
    ensures LandsIn(tree, landed[n := l])
  {
  }

  lemma OverlaidAlso(tree: Tree, before: map<string, Location>, now: map<string, Location>, versions: map<string, string>,
                     n: string, l: Location)
    requires Overlaid(tree, before, now, versions) && l in tree
    ensures Overlaid(tree, before, now[n := l], versions[n := tree[l].version])
  {
  }

  lemma PeerRewires(lock: Lockfile, u: Layout, at: Location, n: string, landed: Location)
    requires at in u.tree && NodeOk(lock, u.tree, at)
    requires landed in u.tree && landed != [] && Last(landed) == n
    ensures Rewires(u.tree, at, RecordPeer(u, at, n, landed).tree[at])
  {
    LandsInAlso(u.tree, u.tree[at].peers, n, landed);
  }

  lemma EdgeRewires(lock: Lockfile, u: Layout, at: Location, e: Edge, landed: Location)
    requires at in u.tree && NodeOk(lock, u.tree, at)
    requires landed in u.tree && landed != [] && Last(landed) == e.name
    ensures Rewires(u.tree, at, RecordEdge(u, at, e, landed).tree[at])
  {
    if e.optional {
      LandsInAlso(u.tree, u.tree[at].optional, e.name, landed);
    } else {
      LandsInAlso(u.tree, u.tree[at].required, e.name, landed);
    }
  }

  /** The node at `at` once a peer has been recorded on it. */
  lemma PeerRecorded(lock: Lockfile, s: Layout, item: Item, t: Progress, u: Layout, e: Edge, landed: Location, v: Layout)
    requires item.at in s.tree && item.at in t.layout.tree && Recorded(lock, s, item.at, t)
    requires Keeps(t.layout.tree, u.tree) && SameEdges(t.layout.tree, u.tree, item.at)
    requires Contexts(t.layout.tree) <= Contexts(u.tree) == Contexts(v.tree) && Keeps(u.tree, v.tree)
    requires v == RecordPeer(u, item.at, e.name, landed)
    requires item.key in u.tree[item.at].contexts && Follows(lock, item.key, e)
    requires Item(landed, e.Target()) in Contexts(u.tree)
    ensures Recorded(lock, s, item.at, t.(layout := v))
  {
    var at := item.at;
    KeepsIsTransitive(t.layout.tree, u.tree, v.tree);
    StaysOverlaid(t.layout.tree, v.tree, s.tree[at].required, v.tree[at].required, t.resolved.dependencies);
    StaysOverlaid(t.layout.tree, v.tree, s.tree[at].optional, v.tree[at].optional, t.resolved.optionalDependencies);
    forall n | n in v.tree[at].peers ensures PeerOk(lock, v.tree, at, n) {
      if n != e.name {
        PeerStaysOk(lock, t.layout.tree, v.tree, at, n);
      }
    }
  }

  /** The node at `at` once an ordinary edge has been recorded on it. */
  lemma EdgeRecorded(lock: Lockfile, s: Layout, item: Item, t: Progress, u: Layout, e: Edge, landed: Location, v: Layout)
    requires item.at in s.tree && item.at in t.layout.tree && Recorded(lock, s, item.at, t)
    requires Keeps(t.layout.tree, u.tree) && SameEdges(t.layout.tree, u.tree, item.at)
    requires Contexts(t.layout.tree) <= Contexts(u.tree) == Contexts(v.tree) && Keeps(u.tree, v.tree)
    requires v == RecordEdge(u, item.at, e, landed) && landed in u.tree
    ensures Recorded(lock, s, item.at, Progress(v, RecordVersion(t.resolved, e, u.tree[landed].version)))
  {
    var at := item.at;
    KeepsIsTransitive(t.layout.tree, u.tree, v.tree);
    StaysOverlaid(t.layout.tree, v.tree, s.tree[at].required, u.tree[at].required, t.resolved.dependencies);
    StaysOverlaid(t.layout.tree, v.tree, s.tree[at].optional, u.tree[at].optional, t.resolved.optionalDependencies);
    if e.optional {
      OverlaidAlso(v.tree, s.tree[at].optional, u.tree[at].optional, t.resolved.optionalDependencies, e.name, landed);
    } else {
      OverlaidAlso(v.tree, s.tree[at].required, u.tree[at].required, t.resolved.dependencies, e.name, landed);
    }
    PeersStayOk(lock, t.layout.tree, v.tree, at);
  }

  /** Every edge held before is held after, and the new one with them. */
  lemma AllHeld(known: PackageEntry, a: Tree, b: Tree, l: Location, r: Resolved, r': Resolved, done: seq<Edge>, e: Edge)
    requires l in a && l in b && Contexts(a) <= Contexts(b) && a[l].peers.Keys <= b[l].peers.Keys
    requires forall d :: d in done ==> Held(known, a, l, r, d)
    requires forall d: Edge :: d in done && VersionFor(r, d).Some? ==> VersionFor(r', d) == VersionFor(r, d)
    requires Held(known, b, l, r', e)
    ensures forall d :: d in done + [e] ==> Held(known, b, l, r', d)
  {
    forall d | d in done + [e] ensures Held(known, b, l, r', d) {
      if d in done { StaysHeld(known, a, b, l, r, r', d); }
    }
  }

  /** What one followed edge does to the layout, whichever kind it is. */
  ghost predicate Advances(lock: Lockfile, s: Layout, item: Item, v: Layout) {
    Grown(lock, s, item.at, v) && Queued(s, v) && Stems(lock, s, item, v)
  }

  lemma FollowAdvances(lock: Lockfile, s: Layout, item: Item, t: Layout, nearest: Location, e: Edge, landing: Landing, node: Placed)
    requires Advances(lock, s, item, t) && Follows(lock, item.key, e)
    requires (nearest == [] || nearest in s.tree) && |nearest| <= |item.at|
    requires Placing(lock, t, nearest, e.Target(), landing)
    requires Rewires(landing.layout.tree, item.at, node)
    ensures Advances(lock, s, item, landing.layout.(tree := landing.layout.tree[item.at := node]))
  {
    var u, i := landing.layout, Item(landing.at, e.Target());
    RewiredGrows(lock, s, item.at, t, u, node);
    EnqueuedQueues(s, t, u, i);
    RewiredQueues(lock, s, u, item.at, node);
    LandedStems(lock, s, item, t, nearest, e, landing);
    RewiredStems(lock, s, item, u, node);
  }

  ghost predicate Notes(known: PackageEntry, tree: Tree, item: Item, r: Resolved, done: seq<Edge>)
    requires item.at in tree
  {
    && OnlyFrom(r, done)
    && item.key in tree[item.at].contexts
    && forall e :: e in done ==> Held(known, tree, item.at, r, e)
  }

  lemma PeerNoted(known: PackageEntry, t: Progress, u: Layout, v: Layout, item: Item, done: seq<Edge>, e: Edge, landed: Location)
    requires item.at in t.layout.tree && Notes(known, t.layout.tree, item, t.resolved, done)
    requires Keeps(t.layout.tree, u.tree) && SameEdges(t.layout.tree, u.tree, item.at)
    requires Contexts(t.layout.tree) <= Contexts(u.tree) == Contexts(v.tree) && Keeps(u.tree, v.tree)
    requires v == RecordPeer(u, item.at, e.name, landed) && e.name in known.peers
    requires Item(landed, e.Target()) in Contexts(u.tree)
    ensures Notes(known, v.tree, item, t.resolved, done + [e])
  {
    assert forall d :: d in done ==> d in done + [e];
    AllHeld(known, t.layout.tree, v.tree, item.at, t.resolved, t.resolved, done, e);
  }

  lemma OnlyFromAlso(r: Resolved, done: seq<Edge>, e: Edge, version: string)
    requires OnlyFrom(r, done)
    ensures OnlyFrom(RecordVersion(r, e, version), done + [e])
  {
    assert forall d :: d in done ==> d in done + [e];
    assert e in done + [e];
  }

  lemma EdgeNoted(known: PackageEntry, t: Progress, u: Layout, v: Layout, item: Item, done: seq<Edge>, e: Edge, landed: Location, r: Resolved)
    requires item.at in t.layout.tree && Notes(known, t.layout.tree, item, t.resolved, done)
    requires Keeps(t.layout.tree, u.tree) && SameEdges(t.layout.tree, u.tree, item.at)
    requires Contexts(t.layout.tree) <= Contexts(u.tree) == Contexts(v.tree) && Keeps(u.tree, v.tree)
    requires v == RecordEdge(u, item.at, e, landed) && e.name !in known.peers
    requires landed in u.tree && r == RecordVersion(t.resolved, e, u.tree[landed].version)
    requires WithoutPeers(e.value) == Some(u.tree[landed].version)
    requires Item(landed, e.Target()) in Contexts(u.tree)
    requires NewTo(done, e)
    ensures Notes(known, v.tree, item, r, done + [e])
  {
    OnlyFromAlso(t.resolved, done, e, u.tree[landed].version);
    AllHeld(known, t.layout.tree, v.tree, item.at, t.resolved, r, done, e);
  }

  ghost predicate Mid(lock: Lockfile, known: PackageEntry, s: Layout, item: Item, p: Progress, done: seq<Edge>) {
    && Advances(lock, s, item, p.layout)
    && Recorded(lock, s, item.at, p)
    && Notes(known, p.layout.tree, item, p.resolved, done)
  }

  lemma FollowPeerKeeps(lock: Lockfile, known: PackageEntry, s: Layout, item: Item, p: Progress, done: seq<Edge>, e: Edge,
                        landing: Landing, q: Progress)
    requires WellFormed(lock, s.tree) && Mid(lock, known, s, item, p, done)
    requires Follows(lock, item.key, e) && e.name in known.peers
    requires Place(lock, p.layout, item.at, e.Target(), true) == Ok(landing)
    requires item.at in landing.layout.tree
    requires q == p.(layout := RecordPeer(landing.layout, item.at, e.name, landing.at))
    ensures Mid(lock, known, s, item, q, done + [e])
  {
    var at, u, v := item.at, landing.layout, q.layout;
    assert NodeOk(lock, s.tree, at);
    PlaceIsPlacing(lock, p.layout, at, e.Target(), true);
    assert NodeOk(lock, u.tree, at) && SameEdges(p.layout.tree, u.tree, at);
    PeerRewires(lock, u, at, e.name, landing.at);
    RewiringKeeps(lock, u.tree, at, v.tree[at]);
    FollowAdvances(lock, s, item, p.layout, Owner(at), e, landing, v.tree[at]);
    PeerRecorded(lock, s, item, p, u, e, landing.at, v);
    PeerNoted(known, p, u, v, item, done, e, landing.at);
  }

  lemma FollowEdgeKeeps(lock: Lockfile, known: PackageEntry, s: Layout, item: Item, p: Progress, done: seq<Edge>, e: Edge,
                        landing: Landing, q: Progress)
    requires WellFormed(lock, s.tree) && Mid(lock, known, s, item, p, done)
    requires Follows(lock, item.key, e) && e.name !in known.peers
    requires NewTo(done, e)
    requires Place(lock, p.layout, item.at, e.Target(), false) == Ok(landing)
    requires item.at in landing.layout.tree && landing.at in landing.layout.tree
    requires q == Progress(RecordEdge(landing.layout, item.at, e, landing.at),
                           RecordVersion(p.resolved, e, landing.layout.tree[landing.at].version))
    ensures Mid(lock, known, s, item, q, done + [e])
  {
    var at, u, v := item.at, landing.layout, q.layout;
    assert NodeOk(lock, s.tree, at);
    PlaceIsPlacing(lock, p.layout, at, e.Target(), false);
    assert NodeOk(lock, u.tree, at) && SameEdges(p.layout.tree, u.tree, at);
    EdgeRewires(lock, u, at, e, landing.at);
    RewiringKeeps(lock, u.tree, at, v.tree[at]);
    FollowAdvances(lock, s, item, p.layout, at, e, landing, v.tree[at]);
    EdgeRecorded(lock, s, item, p, u, e, landing.at, v);
    EdgeNoted(known, p, u, v, item, done, e, landing.at, q.resolved);
  }

  lemma SkipNoted(known: PackageEntry, tree: Tree, item: Item, r: Resolved, done: seq<Edge>, e: Edge)
    requires item.at in tree && Notes(known, tree, item, r, done) && Skipped(known, e.name)
    ensures Notes(known, tree, item, r, done + [e])
  {
    assert forall d :: d in done ==> d in done + [e];
    assert forall d :: d in done + [e] ==> d in done || d == e;
  }

  lemma FollowLands(lock: Lockfile, known: PackageEntry, at: Location, p: Progress, e: Edge, q: Progress) returns (landing: Landing)
    requires at in p.layout.tree && QueuedIsPlaced(p.layout) && !Skipped(known, e.name)
    requires Follow(lock, known, at, p, e) == Ok(q)
    ensures Place(lock, p.layout, at, e.Target(), e.name in known.peers) == Ok(landing)
    ensures at in landing.layout.tree && landing.at in landing.layout.tree
    ensures q == if e.name in known.peers then
                   p.(layout := RecordPeer(landing.layout, at, e.name, landing.at))
                 else
                   Progress(RecordEdge(landing.layout, at, e, landing.at),
                            RecordVersion(p.resolved, e, landing.layout.tree[landing.at].version))
  {
    PlaceLands(lock, p.layout, at, e.Target(), e.name in known.peers);
    landing := Place(lock, p.layout, at, e.Target(), e.name in known.peers).value;
  }

  /** Following one edge keeps everything recorded so far, and adds that edge. */
  lemma FollowKeeps(lock: Lockfile, known: PackageEntry, s: Layout, item: Item, p: Progress, done: seq<Edge>, e: Edge, q: Progress)
    requires WellFormed(lock, s.tree) && Mid(lock, known, s, item, p, done)
    requires QueuedIsPlaced(p.layout)
    requires !Skipped(known, e.name) ==> Follows(lock, item.key, e)
    requires NewTo(done, e)
    requires Follow(lock, known, item.at, p, e) == Ok(q)
    ensures Mid(lock, known, s, item, q, done + [e])
  {
    if Skipped(known, e.name) {
      SkipNoted(known, p.layout.tree, item, p.resolved, done, e);
    } else {
      var landing := FollowLands(lock, known, item.at, p, e, q);
      if e.name in known.peers {
        FollowPeerKeeps(lock, known, s, item, p, done, e, landing, q);
      } else {
        FollowEdgeKeeps(lock, known, s, item, p, done, e, landing, q);
      }
    }
  }

  /** No edge of `done` would be overwritten by recording `e`. */
  ghost predicate NewTo(done: seq<Edge>, e: Edge) {
    forall d :: d in done && d.optional == e.optional ==> d.name != e.name
  }

  ghost predicate NoneTwice(edges: seq<Edge>) {
    forall i, j :: 0 <= i < j < |edges| && edges[i].optional == edges[j].optional ==> edges[i].name != edges[j].name
  }

  lemma NextIsNew(all: seq<Edge>, n: nat)
    requires n < |all| && NoneTwice(all)
    ensures NewTo(all[..n], all[n]) && all[n] in all
    ensures all[..n] + [all[n]] == all[..n + 1]
  {
  }

  lemma Peel(lock: Lockfile, known: PackageEntry, at: Location, p: Progress, all: seq<Edge>, n: nat, q: Progress)
    returns (next: Progress)
    requires n < |all| && at in p.layout.tree && QueuedIsPlaced(p.layout)
    requires FollowAll(lock, known, at, p, all[n..]) == Ok(q)
    ensures Follow(lock, known, at, p, all[n]) == Ok(next)
    ensures at in next.layout.tree && QueuedIsPlaced(next.layout)
    ensures FollowAll(lock, known, at, next, all[n + 1..]) == Ok(q)
  {
    assert all[n..][0] == all[n] && all[n..][1..] == all[n + 1..];
    next := Follow(lock, known, at, p, all[n]).value;
  }

  ghost predicate AllFollow(lock: Lockfile, known: PackageEntry, k: Key, edges: seq<Edge>) {
    forall e :: e in edges && !Skipped(known, e.name) ==> Follows(lock, k, e)
  }

  ghost predicate Partway(lock: Lockfile, known: PackageEntry, s: Layout, item: Item, p: Progress, all: seq<Edge>, n: nat, q: Progress) {
    && n <= |all| && Mid(lock, known, s, item, p, all[..n])
    && QueuedIsPlaced(p.layout)
    && FollowAll(lock, known, item.at, p, all[n..]) == Ok(q)
  }

  lemma StepForward(lock: Lockfile, known: PackageEntry, s: Layout, item: Item, p: Progress, all: seq<Edge>, n: nat, q: Progress)
    returns (next: Progress)
    requires WellFormed(lock, s.tree) && NoneTwice(all) && AllFollow(lock, known, item.key, all)
    requires n < |all| && Partway(lock, known, s, item, p, all, n, q)
    ensures Partway(lock, known, s, item, next, all, n + 1, q)
  {
    next := Peel(lock, known, item.at, p, all, n, q);
    NextIsNew(all, n);
    FollowKeeps(lock, known, s, item, p, all[..n], all[n], next);
  }

  lemma {:induction false} FollowAllKeeps(lock: Lockfile, known: PackageEntry, s: Layout, item: Item, p: Progress,
                                          all: seq<Edge>, n: nat, q: Progress)
    requires WellFormed(lock, s.tree) && NoneTwice(all) && AllFollow(lock, known, item.key, all)
    requires Partway(lock, known, s, item, p, all, n, q)
    ensures Partway(lock, known, s, item, q, all, |all|, q)
    decreases |all| - n
  {
    if n < |all| {
      var next := StepForward(lock, known, s, item, p, all, n, q);
      FollowAllKeeps(lock, known, s, item, next, all, n + 1, q);
    }
  }

  // ------------------------------------------------------------ a whole turn

  /** The layout with its first item off the worklist. */
  function Popped(s: Layout): Layout
    requires s.queue != []
  {
    Layout(s.tree, s.queue[1..])
  }

  /** What one turn does: nothing is lost, one pair is visited, the rest stems from it. */
  ghost predicate Turn(lock: Lockfile, s: Layout, t: Layout)
    requires s.queue != []
  {
    && Keeps(s.tree, t.tree)
    && Visited(t) == Visited(s) + {s.queue[0]}
    && Contexts(s.tree) <= Contexts(t.tree)
    && Stems(lock, s, s.queue[0], t)
  }

  lemma PoppingVisits(s: Layout)
    requires s.queue != [] && QueueOk(s)
    ensures QueueOk(Popped(s))
    ensures Visited(Popped(s)) == Visited(s) + {s.queue[0]}
    ensures s.queue[0] !in Visited(s)
  {
    assert s.queue == [s.queue[0]] + s.queue[1..];
    assert forall i :: i in s.queue <==> i == s.queue[0] || i in s.queue[1..];
    assert s.queue[0] !in s.queue[1..];
    assert Waiting(Popped(s)) == Waiting(s) - {s.queue[0]};
  }

  lemma StartIsMid(lock: Lockfile, known: PackageEntry, s: Layout, item: Item)
    requires WellFormed(lock, s.tree) && QueueOk(s) && NodesAgree(lock, s.tree)
    requires item in Contexts(s.tree)
    ensures Mid(lock, known, s, item, Progress(s, Resolved(map[], map[])), [])
  {
  }

  // ------------------------------------------------------------- settling

  lemma SettlingKeeps(lock: Lockfile, tree: Tree, at: Location, r: Resolved)
    requires WellFormed(lock, tree) && at in tree
    ensures var after := tree[at := tree[at].(resolved := Some(r))];
            WellFormed(lock, after) && Contexts(after) == Contexts(tree) && Keeps(tree, after)
  {
    var node := tree[at].(resolved := Some(r));
    var after := tree[at := node];
    assert PackageAt(after, at) == PackageAt(tree, at);
    assert NodeOk(lock, tree, at);
    assert NodeOk(lock, after, at);
    WriteStaysWellFormed(lock, tree, at, node);
    var k :| k in node.contexts;
    assert node.contexts == tree[at].contexts + {k};
    ContextsAfter(tree, at, node, k);
    ContextsOf(tree, at, k);
    assert Contexts(tree) + {Item(at, k)} == Contexts(tree);
  }

  lemma RecordsStay(a: Tree, b: Tree, landed: map<string, Location>, versions: map<string, string>)
    requires Keeps(a, b) && Records(a, landed, versions)
    ensures Records(b, landed, versions)
  {
  }

  lemma EdgesStillMatch(a: Tree, b: Tree, l: Location)
    requires Keeps(a, b) && l in b && SameEdges(a, b, l)
    requires l in a ==> EdgesMatch(a, l)
    ensures EdgesMatch(b, l)
  {
    if l in a && a[l].resolved.Some? {
      RecordsStay(a, b, a[l].required, a[l].resolved.value.dependencies);
      RecordsStay(a, b, a[l].optional, a[l].resolved.value.optionalDependencies);
    }
  }

  /** The settled layout, as one tree the facts about it can be read off. */
  lemma SettledShape(s: Layout, at: Location, p: Progress, t: Layout)
    requires at in s.tree && at in p.layout.tree && s.tree[at].resolved == p.layout.tree[at].resolved
    requires Settle(p, at) == Ok(t)
    ensures t == p.layout.(tree := p.layout.tree[at := p.layout.tree[at].(resolved := Some(p.resolved))])
    ensures s.tree[at].resolved.Some? ==> s.tree[at].resolved == Some(p.resolved)
  {
  }

  lemma SettledMatches(a: Tree, b: Tree, at: Location, r: Resolved)
    requires at in a && at in b && EdgesMatch(a, at)
    requires a[at].resolved.Some? ==> a[at].resolved == Some(r)
    requires b[at].resolved == Some(r)
    requires Overlaid(b, a[at].required, b[at].required, r.dependencies)
    requires Overlaid(b, a[at].optional, b[at].optional, r.optionalDependencies)
    ensures EdgesMatch(b, at)
  {
  }

  lemma SettledNodeAgrees(lock: Lockfile, s: Layout, at: Location, p: Progress, t: Tree)
    requires at in s.tree && at in p.layout.tree && at in t
    requires EdgesMatch(s.tree, at) && Recorded(lock, s, at, p)
    requires s.tree[at].resolved.Some? ==> s.tree[at].resolved == Some(p.resolved)
    requires t[at] == p.layout.tree[at].(resolved := Some(p.resolved))
    requires Keeps(p.layout.tree, t) && Contexts(t) == Contexts(p.layout.tree)
    ensures EdgesMatch(t, at) && PeersOk(lock, t, at)
  {
    StaysOverlaid(p.layout.tree, t, s.tree[at].required, t[at].required, p.resolved.dependencies);
    StaysOverlaid(p.layout.tree, t, s.tree[at].optional, t[at].optional, p.resolved.optionalDependencies);
    SettledMatches(s.tree, t, at, p.resolved);
    PeersStayOk(lock, p.layout.tree, t, at);
  }

  lemma OtherNodeAgrees(lock: Lockfile, s: Tree, t: Tree, l: Location)
    requires NodesAgree(lock, s) && Keeps(s, t) && Contexts(s) <= Contexts(t)
    requires l in t && SameEdges(s, t, l)
    ensures EdgesMatch(t, l) && PeersOk(lock, t, l)
  {
    EdgesStillMatch(s, t, l);
    if l in s { PeersStayOk(lock, s, t, l); }
  }

  lemma NodesStillAgree(lock: Lockfile, s: Layout, at: Location, p: Progress, t: Tree)
    requires NodesAgree(lock, s.tree) && Grown(lock, s, at, p.layout) && Recorded(lock, s, at, p)
    requires Contexts(s.tree) <= Contexts(p.layout.tree) == Contexts(t)
    requires s.tree[at].resolved.Some? ==> s.tree[at].resolved == Some(p.resolved)
    requires t == p.layout.tree[at := p.layout.tree[at].(resolved := Some(p.resolved))]
    requires Keeps(p.layout.tree, t)
    ensures NodesAgree(lock, t)
  {
    KeepsIsTransitive(s.tree, p.layout.tree, t);
    SettledNodeAgrees(lock, s, at, p, t);
    forall l | l in t ensures EdgesMatch(t, l) && PeersOk(lock, t, l) {
      if l != at {
        assert SameEdges(s.tree, p.layout.tree, l);
        OtherNodeAgrees(lock, s.tree, t, l);
      }
    }
  }

  lemma FollowedStays(lock: Lockfile, a: Tree, b: Tree, i: Item)
    requires i.at in a && i.at in b && Contexts(a) <= Contexts(b) && a[i.at].peers.Keys <= b[i.at].peers.Keys
    requires PackageAt(a, i.at) == PackageAt(b, i.at) && a[i.at].resolved == b[i.at].resolved
    requires Followed(lock, a, i)
    ensures Followed(lock, b, i)
  {
  }

  /** The pair just visited has had every edge of its snapshot followed. */
  lemma JustFollowed(lock: Lockfile, known: PackageEntry, tree: Tree, after: Tree, item: Item, r: Resolved)
    requires item.at in tree && after == tree[item.at := tree[item.at].(resolved := Some(r))]
    requires Contexts(after) == Contexts(tree)
    requires Spell(item.key.name, item.key.value.Text()) in lock.snapshots
    requires PackageOf(lock, PackageAt(tree, item.at)) == Ok(known)
    requires forall e :: e in Edges(lock.snapshots[Spell(item.key.name, item.key.value.Text())]) ==> Held(known, tree, item.at, r, e)
    ensures Followed(lock, after, item)
  {
    assert PackageAt(after, item.at) == PackageAt(tree, item.at);
  }

  lemma AllStillFollowed(lock: Lockfile, known: PackageEntry, s: Layout, item: Item, p: Progress, t: Layout)
    requires AllFollowed(lock, s) && Grown(lock, s, item.at, p.layout) && Recorded(lock, s, item.at, p)
    requires Contexts(s.tree) <= Contexts(t.tree) && Visited(t) == Visited(s) + {item}
    requires Keeps(p.layout.tree, t.tree)
    requires s.tree[item.at].resolved.Some? ==> s.tree[item.at].resolved == Some(p.resolved)
    requires t.tree == p.layout.tree[item.at := p.layout.tree[item.at].(resolved := Some(p.resolved))]
    requires Followed(lock, t.tree, item)
    ensures AllFollowed(lock, t)
  {
    KeepsIsTransitive(s.tree, p.layout.tree, t.tree);
    forall i | i in Visited(t) ensures i.at in t.tree && Followed(lock, t.tree, i) {
      if i != item {
        assert i in Visited(s);
        if i.at != item.at { assert SameEdges(s.tree, p.layout.tree, i.at); }
        FollowedStays(lock, s.tree, t.tree, i);
      }
    }
  }

  /** Every edge of a snapshot the visited node spells is one to follow, unless skipped. */
  lemma SnapshotFollows(lock: Lockfile, known: PackageEntry, tree: Tree, item: Item)
    requires item.at in tree && Spells(item.key, PackageAt(tree, item.at))
    requires Spell(item.key.name, item.key.value.Text()) in lock.snapshots
    requires PackageOf(lock, PackageAt(tree, item.at)) == Ok(known)
    ensures var all := Edges(lock.snapshots[Spell(item.key.name, item.key.value.Text())]);
            AllFollow(lock, known, item.key, all) && NoneTwice(all)
  {
    var snapshot := lock.snapshots[Spell(item.key.name, item.key.value.Text())];
    forall i, j | 0 <= i < j < |Edges(snapshot)| && Edges(snapshot)[i].optional == Edges(snapshot)[j].optional
      ensures Edges(snapshot)[i].name != Edges(snapshot)[j].name
    {
      EdgesAreDistinct(snapshot, i, j);
    }
  }

  /** The state a turn starts from and the one it has reached before it settles. */
  /** `q` is where following every edge of the head's snapshot leads. */
  ghost predicate FollowsTo(lock: Lockfile, s: Layout, known: PackageEntry, q: Progress)
    requires s.queue != [] && QueuedIsPlaced(s)
  {
    var item := s.queue[0];
    var spelled := Spell(item.key.name, item.key.value.Text());
    && spelled in lock.snapshots && PackageOf(lock, PackageAt(s.tree, item.at)) == Ok(known)
    && FollowAll(lock, known, item.at, Progress(Popped(s), Resolved(map[], map[])), Edges(lock.snapshots[spelled])) == Ok(q)
  }

  lemma EdgesAreNoted(lock: Lockfile, s: Layout, known: PackageEntry, q: Progress)
    requires Inv(lock, s) && QueuedIsPlaced(s) && s.queue != [] && FollowsTo(lock, s, known, q)
    ensures var item := s.queue[0];
            Mid(lock, known, Popped(s), item, q, Edges(lock.snapshots[Spell(item.key.name, item.key.value.Text())]))
  {
    var item := s.queue[0];
    var all := Edges(lock.snapshots[Spell(item.key.name, item.key.value.Text())]);
    var start := Progress(Popped(s), Resolved(map[], map[]));
    PoppingVisits(s);
    ContextsOf(s.tree, item.at, item.key);
    assert item in Waiting(s);
    assert NodeOk(lock, s.tree, item.at);
    SnapshotFollows(lock, known, s.tree, item);
    StartIsMid(lock, known, Popped(s), item);
    assert all[..0] == [] && all[0..] == all && all[..|all|] == all;
    FollowAllKeeps(lock, known, Popped(s), item, start, all, 0, q);
  }

  lemma TurnFollows(lock: Lockfile, s: Layout, t: Layout) returns (known: PackageEntry, q: Progress)
    requires Inv(lock, s) && QueuedIsPlaced(s) && s.queue != [] && Visit(lock, s) == Ok(t)
    ensures FollowsTo(lock, s, known, q)
    ensures var item := s.queue[0];
            && Mid(lock, known, Popped(s), item, q, Edges(lock.snapshots[Spell(item.key.name, item.key.value.Text())]))
            && Settle(q, item.at) == Ok(t)
  {
    var item := s.queue[0];
    known := PackageOf(lock, PackageAt(s.tree, item.at)).value;
    q := FollowAll(lock, known, item.at, Progress(Popped(s), Resolved(map[], map[])),
                   Edges(lock.snapshots[Spell(item.key.name, item.key.value.Text())])).value;
    EdgesAreNoted(lock, s, known, q);
  }

  /** One turn keeps the invariant, visits one pair for the first time, and loses nothing. */
  lemma VisitKeepsInv(lock: Lockfile, s: Layout, t: Layout)
    requires Inv(lock, s) && QueuedIsPlaced(s) && s.queue != [] && Visit(lock, s) == Ok(t)
    ensures Inv(lock, t) && Turn(lock, s, t)
    ensures s.queue[0] !in Visited(s)
  {
    var item := s.queue[0];
    var known, q := TurnFollows(lock, s, t);
    PoppingVisits(s);
    SettledShape(Popped(s), item.at, q, t);
    SettlingKeeps(lock, q.layout.tree, item.at, q.resolved);
    KeepsIsTransitive(s.tree, q.layout.tree, t.tree);
    NodesStillAgree(lock, Popped(s), item.at, q, t.tree);
    assert PackageAt(q.layout.tree, item.at) == PackageAt(s.tree, item.at);
    JustFollowed(lock, known, q.layout.tree, t.tree, item, q.resolved);
    AllStillFollowed(lock, known, s, item, q, t);
  }
}
