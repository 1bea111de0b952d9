/**
 * Where copies end up: every name that is placed at all has a copy at the top,
 * and a copy goes further down only when the name is there at two versions.
 */
module Tops {
  import opened Outcomes
  import opened Lockfiles
  import opened Layouts
  import opened Derivations
  import Names

  /** Somewhere in the tree is a copy of what is at `l`, at another version. */
  ghost predicate HasOther(tree: Tree, l: Location)
    requires l in tree && l != []
  {
    exists other :: other in tree && other != [] && Last(other) == Last(l) && tree[other].version != tree[l].version
  }

  ghost predicate Shaped(tree: Tree) {
    forall l :: l in tree ==> l != [] && [Last(l)] in tree && (|l| > 1 ==> HasOther(tree, l))
  }

  /** All of `a` is in `b`, at the version it had. */
  ghost predicate Extends(a: Tree, b: Tree) {
    a.Keys <= b.Keys && forall l :: l in a ==> b[l].version == a[l].version
  }

  lemma OtherStays(a: Tree, b: Tree, l: Location)
    requires Extends(a, b) && l in a && l != [] && HasOther(a, l)
    ensures HasOther(b, l)
  {
    var other :| other in a && other != [] && Last(other) == Last(l) && a[other].version != a[l].version;
    assert other in b && b[other].version == a[other].version;
  }

  lemma SameShape(a: Tree, b: Tree)
    requires Shaped(a) && Extends(a, b) && a.Keys == b.Keys
    ensures Shaped(b)
  {
    forall l | l in b ensures l != [] && [Last(l)] in b && (|l| > 1 ==> HasOther(b, l)) {
      if |l| > 1 { OtherStays(a, b, l); }
    }
  }

  lemma AddingKeepsShape(a: Tree, at: Location, node: Placed)
    requires Shaped(a) && at !in a && at != [] && ([Last(at)] in a || at == [Last(at)])
    requires |at| > 1 ==> exists other :: other in a && other != [] && Last(other) == Last(at) && a[other].version != node.version
    ensures Shaped(a[at := node]) && Extends(a, a[at := node])
  {
    var b := a[at := node];
    forall l | l in b ensures l != [] && [Last(l)] in b && (|l| > 1 ==> HasOther(b, l)) {
      if l == at {
        if |at| > 1 {
          var other :| other in a && other != [] && Last(other) == Last(at) && a[other].version != node.version;
          assert b[other].version != b[at].version;
        }
      } else if |l| > 1 {
        OtherStays(a, b, l);
      }
    }
  }

  lemma NothingFoundKeepsShape(tree: Tree, from: Location, node: Placed)
    requires Shaped(tree) && Walk(tree.Keys, from, node.name).None?
    ensures Shaped(tree[[node.name] := node]) && Extends(tree, tree[[node.name] := node])
  {
    WalkIsNearest(tree.Keys, from, node.name);
    assert from[..0] + [node.name] == [node.name];
    AddingKeepsShape(tree, [node.name], node);
  }

  lemma AnotherFoundKeepsShape(tree: Tree, from: Location, node: Placed, found: Location)
    requires Shaped(tree) && Walk(tree.Keys, from, node.name) == Some(found)
    requires tree[found].version != node.version && found != from + [node.name]
    ensures Shaped(tree[from + [node.name] := node]) && Extends(tree, tree[from + [node.name] := node])
  {
    var at := from + [node.name];
    WalkIsNearest(tree.Keys, from, node.name);
    assert from[..|from|] == from && Last(at) == node.name;
    assert at !in tree;
    AddingKeepsShape(tree, at, node);
  }

  lemma PlaceKeepsShape(lock: Lockfile, s: Layout, requester: Location, key: Key, peer: bool)
    requires Shaped(s.tree) && Place(lock, s, requester, key, peer).Ok?
    ensures var t := Place(lock, s, requester, key, peer).value.layout;
            Shaped(t.tree) && Extends(s.tree, t.tree)
  {
    var from, node := From(requester, peer), Fresh(Package(key.name, WithoutPeers(key.value).value), key);
    match Walk(s.tree.Keys, from, key.name)
    case None => NothingFoundKeepsShape(s.tree, from, node);
    case Some(found) =>
      if s.tree[found].version == node.version {
        SameShape(s.tree, Place(lock, s, requester, key, peer).value.layout.tree);
      } else {
        AnotherFoundKeepsShape(s.tree, from, node, found);
      }
  }

  lemma RecordingKeepsShape(s: Layout, at: Location, e: Edge, landed: Location)
    requires Shaped(s.tree) && at in s.tree
    ensures Shaped(RecordPeer(s, at, e.name, landed).tree) && Extends(s.tree, RecordPeer(s, at, e.name, landed).tree)
    ensures Shaped(RecordEdge(s, at, e, landed).tree) && Extends(s.tree, RecordEdge(s, at, e, landed).tree)
  {
    SameShape(s.tree, RecordPeer(s, at, e.name, landed).tree);
    SameShape(s.tree, RecordEdge(s, at, e, landed).tree);
  }

  lemma FollowKeepsShape(lock: Lockfile, known: PackageEntry, at: Location, p: Progress, e: Edge, q: Progress)
    requires at in p.layout.tree && QueuedIsPlaced(p.layout) && Shaped(p.layout.tree)
    requires Follow(lock, known, at, p, e) == Ok(q)
    ensures Shaped(q.layout.tree) && Extends(p.layout.tree, q.layout.tree)
  {
    if !Skipped(known, e.name) {
      var peer := e.name in known.peers;
      var landing := Place(lock, p.layout, at, e.Target(), peer).value;
      PlaceKeepsShape(lock, p.layout, at, e.Target(), peer);
      RecordingKeepsShape(landing.layout, at, e, landing.at);
      assert q.layout == if peer then RecordPeer(landing.layout, at, e.name, landing.at)
                         else RecordEdge(landing.layout, at, e, landing.at);
    }
  }

  lemma {:induction false} FollowAllKeepsShape(lock: Lockfile, known: PackageEntry, at: Location, p: Progress, edges: seq<Edge>)
    requires at in p.layout.tree && QueuedIsPlaced(p.layout) && Shaped(p.layout.tree)
    requires FollowAll(lock, known, at, p, edges).Ok?
    ensures Shaped(FollowAll(lock, known, at, p, edges).value.layout.tree)
    ensures Extends(p.layout.tree, FollowAll(lock, known, at, p, edges).value.layout.tree)
    decreases |edges|
  {
    if edges != [] {
      FollowKeepsShape(lock, known, at, p, edges[0], Follow(lock, known, at, p, edges[0]).value);
      FollowAllKeepsShape(lock, known, at, Follow(lock, known, at, p, edges[0]).value, edges[1..]);
    }
  }

  lemma SettleKeepsShape(p: Progress, at: Location)
    requires at in p.layout.tree && Shaped(p.layout.tree) && Settle(p, at).Ok?
    ensures Shaped(Settle(p, at).value.tree) && Extends(p.layout.tree, Settle(p, at).value.tree)
  {
    SameShape(p.layout.tree, Settle(p, at).value.tree);
  }

  /** One turn of the worklist keeps the shape. */
  lemma VisitKeepsShape(lock: Lockfile, s: Layout)
    requires s.queue != [] && QueuedIsPlaced(s) && Shaped(s.tree) && Visit(lock, s).Ok?
    ensures Shaped(Visit(lock, s).value.tree) && Extends(s.tree, Visit(lock, s).value.tree)
  {
    var item := s.queue[0];
    var known := PackageOf(lock, Package(s.tree[item.at].name, s.tree[item.at].version)).value;
    var start := Progress(Layout(s.tree, s.queue[1..]), Resolved(map[], map[]));
    var edges := Edges(lock.snapshots[Spell(item.key.name, item.key.value.Text())]);
    FollowAllKeepsShape(lock, known, item.at, start, edges);
    SettleKeepsShape(FollowAll(lock, known, item.at, start, edges).value, item.at);
  }

  /** So does every run of them. */
  lemma {:induction false} AfterKeepsShape(lock: Lockfile, s: Layout, turns: nat)
    requires QueuedIsPlaced(s) && Shaped(s.tree) && After(lock, s, turns).Ok?
    ensures Shaped(After(lock, s, turns).value.tree) && Extends(s.tree, After(lock, s, turns).value.tree)
  {
    if turns > 0 {
      AfterKeepsShape(lock, s, turns - 1);
      var before := After(lock, s, turns - 1).value;
      if before.queue != [] { VisitKeepsShape(lock, before); }
    }
  }

  /** A root edge that is not bundled leaves its package at the top, at the version the importers resolve to. */
  ghost predicate AtTheTop(lock: Lockfile, m: Manifest, importers: seq<string>, tree: Tree, e: RootEdge) {
    e.name in m.bundleDependencies ||
    var version := ResolvedByImporters(lock, importers, e.name, e.range);
    version.Ok? && [e.name] in tree && Some(tree[[e.name]].version) == WithoutPeers(version.value)
  }

  lemma RootKeepsShape(lock: Lockfile, m: Manifest, importers: seq<string>, r: Rooted, e: RootEdge)
    requires QueuedIsPlaced(r.layout) && Shaped(r.layout.tree) && Root(lock, m, importers, r, e).Ok?
    ensures var next := Root(lock, m, importers, r, e).value;
            Shaped(next.layout.tree) && Extends(r.layout.tree, next.layout.tree) && AtTheTop(lock, m, importers, next.layout.tree, e)
  {
    if e.name !in m.bundleDependencies {
      var key := Key(e.name, ResolvedByImporters(lock, importers, e.name, e.range).value);
      PlaceKeepsShape(lock, r.layout, [], key, false);
      PlacedIsWhatNodeFinds(lock, r.layout, [], key, false);
      var landing := Place(lock, r.layout, [], key, false).value;
      assert landing.at == [e.name];
    }
  }

  lemma {:induction false} RootAllKeepsShape(lock: Lockfile, m: Manifest, importers: seq<string>, r: Rooted, edges: seq<RootEdge>)
    requires QueuedIsPlaced(r.layout) && Shaped(r.layout.tree) && RootAll(lock, m, importers, r, edges).Ok?
    ensures var next := RootAll(lock, m, importers, r, edges).value;
            && Shaped(next.layout.tree) && Extends(r.layout.tree, next.layout.tree)
            && forall e :: e in edges ==> AtTheTop(lock, m, importers, next.layout.tree, e)
    decreases |edges|
  {
    if edges != [] {
      var step := Root(lock, m, importers, r, edges[0]).value;
      RootKeepsShape(lock, m, importers, r, edges[0]);
      RootAllKeepsShape(lock, m, importers, step, edges[1..]);
    }
  }

  /** After any number of turns: the shape, and every root edge still where Node looks for it. */
  lemma DerivedIsShaped(lock: Lockfile, m: Manifest, importers: seq<string>, turns: nat, r: Rooted, s: Layout)
    requires Begin(lock, m, importers) == Ok(r) && After(lock, r.layout, turns) == Ok(s)
    ensures Shaped(r.layout.tree) && Shaped(s.tree)
    ensures forall e :: e in RootEdges(m) ==> AtTheTop(lock, m, importers, s.tree, e)
  {
    RootAllKeepsShape(lock, m, importers, Bare, RootEdges(m));
    AfterKeepsShape(lock, r.layout, turns);
    forall e | e in RootEdges(m) ensures AtTheTop(lock, m, importers, s.tree, e) {
      assert AtTheTop(lock, m, importers, r.layout.tree, e);
    }
  }

  // ------------------------------------------------------- what the root holds

  ghost predicate HasEdge(m: Manifest, edges: seq<RootEdge>, name: string, optional: bool) {
    name !in m.bundleDependencies && exists e :: e in edges && e.name == name && e.optional == optional
  }

  ghost predicate AllAtTheTop(landed: map<string, Location>) {
    forall n :: n in landed ==> landed[n] == [n]
  }

  lemma RootRecords(lock: Lockfile, m: Manifest, importers: seq<string>, r: Rooted, e: RootEdge, next: Rooted)
    requires QueuedIsPlaced(r.layout) && Root(lock, m, importers, r, e) == Ok(next)
    ensures next.required == if e.name in m.bundleDependencies || e.optional then r.required else r.required[e.name := [e.name]]
    ensures next.optional == if e.name in m.bundleDependencies || !e.optional then r.optional else r.optional[e.name := [e.name]]
  {
    if e.name !in m.bundleDependencies {
      var key := Key(e.name, ResolvedByImporters(lock, importers, e.name, e.range).value);
      PlacedIsWhatNodeFinds(lock, r.layout, [], key, false);
      assert Place(lock, r.layout, [], key, false).value.at == [e.name];
    }
  }

  lemma HasEdgeOneMore(m: Manifest, edges: seq<RootEdge>, name: string, optional: bool)
    requires edges != []
    ensures HasEdge(m, edges, name, optional) <==>
              || (name !in m.bundleDependencies && edges[0].name == name && edges[0].optional == optional)
              || HasEdge(m, edges[1..], name, optional)
  {
    assert forall e :: e in edges <==> e == edges[0] || e in edges[1..];
  }

  lemma {:induction false} RootAllRecords(lock: Lockfile, m: Manifest, importers: seq<string>, r: Rooted, edges: seq<RootEdge>,
                                          next: Rooted, n: string)
    requires QueuedIsPlaced(r.layout) && AllAtTheTop(r.required) && AllAtTheTop(r.optional)
    requires RootAll(lock, m, importers, r, edges) == Ok(next)
    ensures AllAtTheTop(next.required) && AllAtTheTop(next.optional)
    ensures n in next.required <==> n in r.required || HasEdge(m, edges, n, false)
    ensures n in next.optional <==> n in r.optional || HasEdge(m, edges, n, true)
    decreases |edges|
  {
    if edges != [] {
      var step := Root(lock, m, importers, r, edges[0]).value;
      RootRecords(lock, m, importers, r, edges[0], step);
      RootAllRecords(lock, m, importers, step, edges[1..], next, n);
      HasEdgeOneMore(m, edges, n, false);
      HasEdgeOneMore(m, edges, n, true);
    }
  }

  /** Where the manifest's own required edges lead: the ones the tarball does not carry itself. */
  function RequiredRoots(m: Manifest): set<Location> {
    set n | n in m.dependencies && n !in m.bundleDependencies :: [n]
  }

  lemma RootHasEdge(m: Manifest, n: string, optional: bool)
    ensures HasEdge(m, RootEdges(m), n, optional) <==>
            n !in m.bundleDependencies && n in if optional then m.optionalDependencies else m.dependencies
  {
    var section := if optional then m.optionalDependencies else m.dependencies;
    var names := Names.Sorted(m.dependencies.Keys + m.optionalDependencies.Keys);
    forall e ensures e in RootEdges(m) && e.name == n && e.optional == optional ==> n in section {
      RootEdgesForAreTheSections(m, names, e);
    }
    if n in section { RootEdgesForAreTheSections(m, names, RootEdge(n, section[n], optional)); }
  }

  /** The root requires what `dependencies` names and takes as optional what `optionalDependencies` does, each at the top. */
  lemma RootHoldsTheManifest(lock: Lockfile, m: Manifest, importers: seq<string>, r: Rooted)
    requires Begin(lock, m, importers) == Ok(r)
    ensures forall n :: n in r.required <==> n in m.dependencies && n !in m.bundleDependencies
    ensures forall n :: n in r.optional <==> n in m.optionalDependencies && n !in m.bundleDependencies
    ensures AllAtTheTop(r.required) && AllAtTheTop(r.optional) && r.required.Values == RequiredRoots(m)
  {
    forall n
      ensures n in r.required <==> n in m.dependencies && n !in m.bundleDependencies
      ensures n in r.optional <==> n in m.optionalDependencies && n !in m.bundleDependencies
    {
      RootAllRecords(lock, m, importers, Bare, RootEdges(m), r, n);
      RootHasEdge(m, n, false);
      RootHasEdge(m, n, true);
    }
    RootAllRecords(lock, m, importers, Bare, RootEdges(m), r, "");
    ValuesAtTheTop(r.required, m);
  }

  lemma ValuesAtTheTop(landed: map<string, Location>, m: Manifest)
    requires AllAtTheTop(landed) && forall n :: n in landed <==> n in m.dependencies && n !in m.bundleDependencies
    ensures landed.Values == RequiredRoots(m)
  {
    forall l ensures l in landed.Values <==> l in RequiredRoots(m) {
      if l in landed.Values { var n :| n in landed && landed[n] == l; assert n in m.dependencies; }
      if l in RequiredRoots(m) { var n :| n in m.dependencies && n !in m.bundleDependencies && [n] == l; assert landed[n] == l; }
    }
  }
}
