/**
 * Placing the lockfile's snapshots in npm's `node_modules` tree: what one
 * placement does, what one turn of the worklist does, and what a run does.
 *
 * A location is the list of names on the way down from the package root, so
 * `["a", "b"]` is `node_modules/a/node_modules/b` and `[]` is the root.
 */
module Layouts {
  import opened Outcomes
  import opened Lockfiles

  type Location = seq<string>

  function Owner(l: Location): Location {
    if l == [] then [] else l[..|l| - 1]
  }

  function Last(l: Location): string
    requires l != []
  {
    l[|l| - 1]
  }

  /** The edge versions one node was written with, section by section. */
  datatype Resolved = Resolved(dependencies: map<string, string>, optionalDependencies: map<string, string>)

  /** One package placed in the tree, and where each of its edges landed. */
  datatype Placed = Placed(
    name: string,
    version: string,
    contexts: set<Key>,
    resolved: Option<Resolved>,
    required: map<string, Location>,
    optional: map<string, Location>,
    peers: map<string, Location>)

  function Fresh(p: Package, key: Key): Placed {
    Placed(p.name, p.version, {key}, None, map[], map[], map[])
  }

  type Tree = map<Location, Placed>

  /** A node to visit, and the snapshot to visit it through. */
  datatype Item = Item(at: Location, key: Key)

  datatype Layout = Layout(tree: Tree, queue: seq<Item>)

  // -------------------------------------------------------------- placement

  /** Node's walk: the nearest `node_modules` above `from` that holds `name`. */
  function Walk(present: set<Location>, from: Location, name: string): (found: Option<Location>)
    ensures found.Some? ==> found.value in present && found.value != [] && Last(found.value) == name
    ensures found.Some? ==> |found.value| <= |from| + 1
    decreases |from|
  {
    if from + [name] in present then Some(from + [name])
    else if from == [] then None
    else Walk(present, Owner(from), name)
  }

  /** What Node promises: `found` holds `name`, in the longest prefix of `from` that does. */
  ghost predicate IsNearest(present: set<Location>, from: Location, name: string, found: Location) {
    && found != [] && |found| <= |from| + 1
    && found == from[..|found| - 1] + [name]
    && found in present
    && forall i :: |found| <= i <= |from| ==> from[..i] + [name] !in present
  }

  lemma {:induction false} WalkIsNearest(present: set<Location>, from: Location, name: string)
    ensures Walk(present, from, name).None? <==> forall i :: 0 <= i <= |from| ==> from[..i] + [name] !in present
    ensures forall found :: Walk(present, from, name) == Some(found) <==> IsNearest(present, from, name, found)
    decreases |from|
  {
    assert from[..|from|] == from;
    if from + [name] !in present && from != [] {
      WalkIsNearest(present, Owner(from), name);
      assert forall i :: 0 <= i < |from| ==> Owner(from)[..i] == from[..i];
    }
  }

  /** Where a request was satisfied, and the layout after it. */
  datatype Landing = Landing(at: Location, layout: Layout)

  /** The node at `at` also stands for `key`, which is still to be visited. */
  function Join(s: Layout, at: Location, key: Key): Layout
    requires at in s.tree
  {
    var node := s.tree[at];
    Layout(s.tree[at := node.(contexts := node.contexts + {key})], s.queue + [Item(at, key)])
  }

  function Add(s: Layout, at: Location, p: Package, key: Key): Layout {
    Layout(s.tree[at := Fresh(p, key)], s.queue + [Item(at, key)])
  }

  /**
   * `place`: put `key` where `requester` resolves it. The nearest copy is
   * reused when its version is the one asked for; when it is another the
   * package goes directly under the nearest directory; when there is none it
   * goes to the top. A peer is looked for from the requester's owner.
   */
  function Place(lock: Lockfile, s: Layout, requester: Location, key: Key, peer: bool): Result<Landing, Refusal> {
    match WithoutPeers(key.value)
    case None => Refused(NotPinnable(key))
    case Some(version) =>
      var p := Package(key.name, version);
      var nearest := if peer then Owner(requester) else requester;
      match Walk(s.tree.Keys, nearest, key.name)
      case Some(found) =>
        if s.tree[found].version == version then
          Ok(Landing(found, if key in s.tree[found].contexts then s else Join(s, found, key)))
        else if found == nearest + [key.name] then
          Refused(AlreadySits(key))
        else
          var _ :- PackageOf(lock, p);
          Ok(Landing(nearest + [key.name], Add(s, nearest + [key.name], p, key)))
      case None =>
        var _ :- PackageOf(lock, p);
        Ok(Landing([key.name], Add(s, [key.name], p, key)))
  }

  /** From where a request is looked for. */
  function From(requester: Location, peer: bool): Location {
    if peer then Owner(requester) else requester
  }

  /** Adding the place a walk starts at, or the top when nothing is nearer, makes it the nearest. */
  lemma AddedIsNearest(present: set<Location>, from: Location, name: string, at: Location)
    requires at == from + [name] || (at == [name] && forall i :: 0 <= i <= |from| ==> from[..i] + [name] !in present)
    ensures IsNearest(present + {at}, from, name, at)
  {
    assert from[..|from|] == from && from[..0] == [];
    if at != from + [name] {
      forall i | |at| <= i <= |from| ensures from[..i] + [name] !in present + {at} {
        assert |from[..i] + [name]| == i + 1;
      }
    }
  }

  /**
   * A placement in Node's terms. The nearest copy stays the one found when it
   * is the version asked for; another version is put in front of it; with no
   * copy on the way up the package goes to the top. Either way Node, asked
   * next, finds exactly what was placed, at the version asked for.
   */
  lemma PlacedIsWhatNodeFinds(lock: Lockfile, s: Layout, requester: Location, key: Key, peer: bool)
    requires Place(lock, s, requester, key, peer).Ok?
    ensures var landing := Place(lock, s, requester, key, peer).value;
            && IsNearest(landing.layout.tree.Keys, From(requester, peer), key.name, landing.at)
            && Some(landing.layout.tree[landing.at].version) == WithoutPeers(key.value)
    ensures var at, from := Place(lock, s, requester, key, peer).value.at, From(requester, peer);
            && (forall found :: IsNearest(s.tree.Keys, from, key.name, found) ==>
                  at == if Some(s.tree[found].version) == WithoutPeers(key.value) then found else from + [key.name])
            && ((forall i :: 0 <= i <= |from| ==> from[..i] + [key.name] !in s.tree) ==> at == [key.name])
  {
    var landing, from := Place(lock, s, requester, key, peer).value, From(requester, peer);
    WalkIsNearest(s.tree.Keys, from, key.name);
    if landing.at in s.tree {
      assert landing.layout.tree.Keys == s.tree.Keys;
    } else {
      assert landing.layout.tree.Keys == s.tree.Keys + {landing.at};
      AddedIsNearest(s.tree.Keys, from, key.name, landing.at);
    }
  }

  /**
   * A placement is refused exactly when the version is no registry version,
   * when another version sits where the copy would have to go, or when the
   * lockfile has no package to put there that brings only itself.
   */
  lemma PlaceRefusesExactly(lock: Lockfile, s: Layout, requester: Location, key: Key, peer: bool)
    ensures var from, version := From(requester, peer), WithoutPeers(key.value);
            Place(lock, s, requester, key, peer).Refused? <==>
              || version.None?
              || (from + [key.name] in s.tree && s.tree[from + [key.name]].version != version.value)
              || (&& (forall found :: IsNearest(s.tree.Keys, from, key.name, found) ==> s.tree[found].version != version.value)
                  && (var p := key.name + "@" + version.value;
                      p !in lock.packages || lock.packages[p].bundles))
  {
    var from := From(requester, peer);
    WalkIsNearest(s.tree.Keys, from, key.name);
    assert from[..|from|] == from;
    assert from + [key.name] in s.tree ==> IsNearest(s.tree.Keys, from, key.name, from + [key.name]);
  }

  // ---------------------------------------------------------------- visiting

  /** A node part-way through its edges. */
  datatype Progress = Progress(layout: Layout, resolved: Resolved)

  function RecordPeer(s: Layout, at: Location, name: string, landed: Location): Layout
    requires at in s.tree
  {
    var node := s.tree[at];
    s.(tree := s.tree[at := node.(peers := node.peers[name := landed])])
  }

  function RecordEdge(s: Layout, at: Location, e: Edge, landed: Location): Layout
    requires at in s.tree
  {
    var node := s.tree[at];
    s.(tree := s.tree[at :=
      if e.optional then node.(optional := node.optional[e.name := landed])
      else node.(required := node.required[e.name := landed])])
  }

  function RecordVersion(r: Resolved, e: Edge, version: string): Resolved {
    if e.optional then r.(optionalDependencies := r.optionalDependencies[e.name := version])
    else r.(dependencies := r.dependencies[e.name := version])
  }

  lemma PlaceLands(lock: Lockfile, s: Layout, requester: Location, key: Key, peer: bool)
    ensures var r := Place(lock, s, requester, key, peer);
            r.Ok? ==>
              && r.value.at in r.value.layout.tree
              && s.tree.Keys <= r.value.layout.tree.Keys
              && (forall i :: i in r.value.layout.queue ==> i in s.queue || i.at in r.value.layout.tree)
  {
  }

  predicate QueuedIsPlaced(s: Layout) {
    forall i :: i in s.queue ==> i.at in s.tree
  }

  /** One edge of the node at `at`. */
  function Follow(lock: Lockfile, known: PackageEntry, at: Location, p: Progress, e: Edge): (r: Result<Progress, Refusal>)
    requires at in p.layout.tree && QueuedIsPlaced(p.layout)
    ensures r.Ok? ==> at in r.value.layout.tree && QueuedIsPlaced(r.value.layout)
  {
    PlaceLands(lock, p.layout, at, e.Target(), e.name in known.peers);
    if Skipped(known, e.name) then
      Ok(p)
    else if e.name in known.peers then
      var landing :- Place(lock, p.layout, at, e.Target(), true);
      Ok(p.(layout := RecordPeer(landing.layout, at, e.name, landing.at)))
    else
      var landing :- Place(lock, p.layout, at, e.Target(), false);
      Ok(Progress(
           RecordEdge(landing.layout, at, e, landing.at),
           RecordVersion(p.resolved, e, landing.layout.tree[landing.at].version)))
  }

  function FollowAll(lock: Lockfile, known: PackageEntry, at: Location, p: Progress, edges: seq<Edge>)
    : (r: Result<Progress, Refusal>)
    requires at in p.layout.tree && QueuedIsPlaced(p.layout)
    ensures r.Ok? ==> at in r.value.layout.tree && QueuedIsPlaced(r.value.layout)
    decreases |edges|
  {
    if edges == [] then
      Ok(p)
    else
      var next :- Follow(lock, known, at, p, edges[0]);
      FollowAll(lock, known, at, next, edges[1..])
  }

  /** Two peer contexts of one version have to agree on everything but their peers. */
  function Settle(p: Progress, at: Location): Result<Layout, Refusal>
    requires at in p.layout.tree
  {
    var node := p.layout.tree[at];
    if node.resolved.Some? && node.resolved.value != p.resolved then
      Refused(ContextsDisagree(Package(node.name, node.version)))
    else
      Ok(p.layout.(tree := p.layout.tree[at := node.(resolved := Some(p.resolved))]))
  }

  /** One turn of the worklist. */
  function Visit(lock: Lockfile, s: Layout): (r: Result<Layout, Refusal>)
    requires s.queue != [] && QueuedIsPlaced(s)
    ensures r.Ok? ==> QueuedIsPlaced(r.value)
  {
    var item := s.queue[0];
    var spelled := Spell(item.key.name, item.key.value.Text());
    if spelled !in lock.snapshots then
      Refused(NoSnapshot(item.key))
    else
      var node := s.tree[item.at];
      var known :- PackageOf(lock, Package(node.name, node.version));
      var start := Progress(Layout(s.tree, s.queue[1..]), Resolved(map[], map[]));
      var done :- FollowAll(lock, known, item.at, start, Edges(lock.snapshots[spelled]));
      Settle(done, item.at)
  }

  /** The layout `turns` turns later; a worklist that has emptied stays as it is. */
  function After(lock: Lockfile, s: Layout, turns: nat): (r: Result<Layout, Refusal>)
    requires QueuedIsPlaced(s)
    ensures r.Ok? ==> QueuedIsPlaced(r.value)
  {
    if turns == 0 then
      Ok(s)
    else
      var before :- After(lock, s, turns - 1);
      if before.queue == [] then Ok(before) else Visit(lock, before)
  }

  lemma OneMore(lock: Lockfile, s: Layout, turns: nat, before: Layout)
    requires QueuedIsPlaced(s) && After(lock, s, turns) == Ok(before) && before.queue != []
    ensures After(lock, s, turns + 1) == Visit(lock, before)
  {
  }

  /** The loop has ended, one way or the other. */
  predicate Halted(r: Result<Layout, Refusal>) {
    r.Refused? || r.value.queue == []
  }
}
