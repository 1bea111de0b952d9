/**
 * What every turn of the worklist keeps: a well-formed tree in which no
 * location is ever overwritten, a worklist on which every pair of a node and a
 * snapshot key appears at most once, and a record of every edge of every pair
 * already visited.
 */
module LayoutInvariants {
  import opened Outcomes
  import opened Lockfiles
  import opened Layouts
  import opened Finite

  // -------------------------------------------------------------- predicates

  /** Every pair of a placed node and a snapshot key it was reached through. */
  ghost function Contexts(tree: Tree): set<Item> {
    set l, k | l in tree && k in tree[l].contexts :: Item(l, k)
  }

  ghost function Waiting(s: Layout): set<Item> {
    set i | i in s.queue
  }

  /** The pairs whose edges have been followed. */
  ghost function Visited(s: Layout): set<Item> {
    Contexts(s.tree) - Waiting(s)
  }

  ghost predicate HasContext(tree: Tree, k: Key) {
    exists l :: Item(l, k) in Contexts(tree)
  }

  /** Nothing is overwritten and no version changes; contexts only gather. */
  ghost predicate Keeps(a: Tree, b: Tree) {
    forall l :: l in a ==>
      && l in b
      && a[l].name == b[l].name
      && a[l].version == b[l].version
      && a[l].contexts <= b[l].contexts
  }

  /** The edges of the node at `l` are the ones it had, or none if it is new. */
  ghost predicate SameEdges(a: Tree, b: Tree, l: Location)
    requires l in b
  {
    if l in a then
      && b[l].resolved == a[l].resolved && b[l].required == a[l].required
      && b[l].optional == a[l].optional && b[l].peers == a[l].peers
    else
      b[l].resolved == None && b[l].required == b[l].optional == b[l].peers == map[]
  }

  ghost predicate LandsIn(tree: Tree, landed: map<string, Location>) {
    forall n :: n in landed ==> landed[n] in tree && landed[n] != [] && Last(landed[n]) == n
  }

  function PackageAt(tree: Tree, l: Location): Package
    requires l in tree
  {
    Package(tree[l].name, tree[l].version)
  }

  ghost predicate NodeOk(lock: Lockfile, tree: Tree, l: Location)
    requires l in tree
  {
    && l != [] && tree[l].name == Last(l)
    && (Owner(l) == [] || Owner(l) in tree)
    && tree[l].contexts != {}
    && (forall k :: k in tree[l].contexts ==> Spells(k, PackageAt(tree, l)))
    && PackageOf(lock, PackageAt(tree, l)).Ok?
    && LandsIn(tree, tree[l].required) && LandsIn(tree, tree[l].optional) && LandsIn(tree, tree[l].peers)
  }

  /** The tree is one npm could hold: the claim every turn keeps. */
  ghost predicate WellFormed(lock: Lockfile, tree: Tree) {
    forall l :: l in tree ==> NodeOk(lock, tree, l)
  }

  ghost predicate QueueOk(s: Layout) {
    Distinct(s.queue) && Waiting(s) <= Contexts(s.tree)
  }

  /** The edge map and the version map of one section say the same thing. */
  ghost predicate Records(tree: Tree, landed: map<string, Location>, versions: map<string, string>) {
    && landed.Keys == versions.Keys
    && forall n :: n in landed ==> landed[n] in tree && tree[landed[n]].version == versions[n]
  }

  ghost predicate EdgesMatch(tree: Tree, l: Location)
    requires l in tree
  {
    match tree[l].resolved
    case None => tree[l].required == tree[l].optional == map[]
    case Some(r) => Records(tree, tree[l].required, r.dependencies) && Records(tree, tree[l].optional, r.optionalDependencies)
  }

  /** A recorded peer is one a snapshot of this node asked for, at that version. */
  ghost predicate PeerOk(lock: Lockfile, tree: Tree, l: Location, n: string)
    requires l in tree && n in tree[l].peers
  {
    exists k, e: Edge ::
      && k in tree[l].contexts && Follows(lock, k, e) && e.name == n
      && Item(tree[l].peers[n], e.Target()) in Contexts(tree)
  }

  ghost predicate PeersOk(lock: Lockfile, tree: Tree, l: Location)
    requires l in tree
  {
    forall n :: n in tree[l].peers ==> PeerOk(lock, tree, l, n)
  }

  function VersionFor(r: Resolved, e: Edge): Option<string> {
    var section := if e.optional then r.optionalDependencies else r.dependencies;
    if e.name in section then Some(section[e.name]) else None
  }

  /** Edge `e` of the node at `l` has been followed, and `r` is what it was written with. */
  ghost predicate Held(known: PackageEntry, tree: Tree, l: Location, r: Resolved, e: Edge)
    requires l in tree
  {
    || Skipped(known, e.name)
    || (&& HasContext(tree, e.Target())
        && if e.name in known.peers then e.name in tree[l].peers
           else VersionFor(r, e).Some? && VersionFor(r, e) == WithoutPeers(e.value))
  }

  ghost predicate Followed(lock: Lockfile, tree: Tree, i: Item)
    requires i.at in tree
  {
    var spelled := Spell(i.key.name, i.key.value.Text());
    var known := PackageOf(lock, PackageAt(tree, i.at));
    && spelled in lock.snapshots && known.Ok? && tree[i.at].resolved.Some?
    && forall e :: e in Edges(lock.snapshots[spelled]) ==> Held(known.value, tree, i.at, tree[i.at].resolved.value, e)
  }

  ghost predicate AllFollowed(lock: Lockfile, s: Layout) {
    forall i :: i in Visited(s) ==> i.at in s.tree && Followed(lock, s.tree, i)
  }

  ghost predicate NodesAgree(lock: Lockfile, tree: Tree) {
    forall l :: l in tree ==> EdgesMatch(tree, l) && PeersOk(lock, tree, l)
  }

  ghost predicate Inv(lock: Lockfile, s: Layout) {
    WellFormed(lock, s.tree) && QueueOk(s) && NodesAgree(lock, s.tree) && AllFollowed(lock, s)
  }

  // ---------------------------------------------------------- one placement

  lemma ContextsOf(tree: Tree, l: Location, k: Key)
    ensures Item(l, k) in Contexts(tree) <==> l in tree && k in tree[l].contexts
  {
  }

  /** Writing one node changes the pairs at that node and no others. */
  lemma ContextsAfter(tree: Tree, at: Location, node: Placed, key: Key)
    requires node.contexts == (if at in tree then tree[at].contexts else {}) + {key}
    ensures Contexts(tree[at := node]) == Contexts(tree) + {Item(at, key)}
  {
    forall i: Item ensures i in Contexts(tree[at := node]) <==> i in Contexts(tree) + {Item(at, key)} {
      assert i == Item(i.at, i.key);
      ContextsOf(tree, i.at, i.key);
      ContextsOf(tree[at := node], i.at, i.key);
    }
  }

  /** `t` is a well-formed tree holding all of `s`, with no edge recorded since. */
  ghost predicate Grew(lock: Lockfile, s: Tree, t: Tree) {
    && WellFormed(lock, t)
    && Keeps(s, t)
    && forall l :: l in t ==> SameEdges(s, t, l)
  }

  /** The one place that may be new, and how far down it can be. */
  ghost predicate Landed(s: Tree, t: Tree, nearest: Location, key: Key, at: Location) {
    && at in t && at != [] && Last(at) == key.name
    && Spells(key, PackageAt(t, at))
    && t.Keys == s.Keys + {at}
    && |at| <= |nearest| + 1
    && (at in s || Owner(at) == [] || Owner(at) == nearest)
  }

  /** Pair `i` is there now, and waits if it was not there before. */
  ghost predicate Enqueued(s: Layout, t: Layout, i: Item) {
    && Contexts(t.tree) == Contexts(s.tree) + {i}
    && t.queue == s.queue + if i in Contexts(s.tree) then [] else [i]
  }

  /** What one placement does, wherever it lands. */
  ghost predicate Placing(lock: Lockfile, s: Layout, nearest: Location, key: Key, landing: Landing) {
    && Grew(lock, s.tree, landing.layout.tree)
    && Landed(s.tree, landing.layout.tree, nearest, key, landing.at)
    && Enqueued(s, landing.layout, Item(landing.at, key))
  }

  /** The two nodes are one package in one place, the second with more contexts. */
  ghost predicate SameNode(a: Placed, b: Placed) {
    && a.name == b.name && a.version == b.version && a.contexts <= b.contexts
    && a.required == b.required && a.optional == b.optional && a.peers == b.peers
  }

  lemma NodeStaysOk(lock: Lockfile, a: Tree, b: Tree, l: Location)
    requires l in a && l in b && NodeOk(lock, a, l) && a.Keys <= b.Keys
    requires a[l] == b[l]
    ensures NodeOk(lock, b, l)
  {
    assert PackageAt(a, l) == PackageAt(b, l);
  }

  lemma WriteStaysWellFormed(lock: Lockfile, tree: Tree, at: Location, node: Placed)
    requires WellFormed(lock, tree) && NodeOk(lock, tree[at := node], at)
    ensures WellFormed(lock, tree[at := node])
  {
    var after := tree[at := node];
    forall l | l in after ensures NodeOk(lock, after, l) {
      if l != at { NodeStaysOk(lock, tree, after, l); }
    }
  }

  lemma WriteEnqueues(s: Layout, at: Location, node: Placed, key: Key)
    requires node.contexts == (if at in s.tree then s.tree[at].contexts else {}) + {key}
    requires at in s.tree ==> key !in s.tree[at].contexts
    ensures Enqueued(s, Layout(s.tree[at := node], s.queue + [Item(at, key)]), Item(at, key))
  {
    ContextsAfter(s.tree, at, node, key);
    ContextsOf(s.tree, at, key);
  }

  lemma WriteGrows(lock: Lockfile, tree: Tree, at: Location, node: Placed)
    requires WellFormed(lock, tree) && NodeOk(lock, tree[at := node], at)
    requires if at in tree then SameNode(tree[at], node) && tree[at].resolved == node.resolved
             else node.resolved == None && node.required == node.optional == node.peers == map[]
    ensures Grew(lock, tree, tree[at := node])
  {
    WriteStaysWellFormed(lock, tree, at, node);
  }

  lemma JoinIsPlacing(lock: Lockfile, s: Layout, nearest: Location, key: Key, at: Location)
    requires WellFormed(lock, s.tree) && at in s.tree && |at| <= |nearest| + 1
    requires Spells(key, PackageAt(s.tree, at)) && key !in s.tree[at].contexts
    ensures Placing(lock, s, nearest, key, Landing(at, Join(s, at, key)))
  {
    var t := Join(s, at, key);
    assert NodeOk(lock, s.tree, at);
    assert PackageAt(t.tree, at) == PackageAt(s.tree, at);
    WriteGrows(lock, s.tree, at, t.tree[at]);
    WriteEnqueues(s, at, t.tree[at], key);
  }

  lemma AddIsPlacing(lock: Lockfile, s: Layout, nearest: Location, key: Key, at: Location, p: Package)
    requires WellFormed(lock, s.tree) && at !in s.tree && at != [] && |at| <= |nearest| + 1
    requires Owner(at) == [] || (Owner(at) == nearest && nearest in s.tree)
    requires Last(at) == key.name && Spells(key, p) && PackageOf(lock, p).Ok?
    ensures Placing(lock, s, nearest, key, Landing(at, Add(s, at, p, key)))
  {
    var t := Add(s, at, p, key);
    assert PackageAt(t.tree, at) == p;
    WriteGrows(lock, s.tree, at, t.tree[at]);
    WriteEnqueues(s, at, t.tree[at], key);
  }

  lemma StayIsPlacing(lock: Lockfile, s: Layout, nearest: Location, key: Key, at: Location)
    requires WellFormed(lock, s.tree) && at in s.tree && |at| <= |nearest| + 1
    requires Spells(key, PackageAt(s.tree, at)) && key in s.tree[at].contexts
    ensures Placing(lock, s, nearest, key, Landing(at, s))
  {
    assert NodeOk(lock, s.tree, at);
    ContextsOf(s.tree, at, key);
    assert Contexts(s.tree) == Contexts(s.tree) + {Item(at, key)};
    assert s.queue + [] == s.queue;
  }

  /** Where the walk finds nothing, the copy goes at the root. */
  lemma PlaceNowhereIsPlacing(lock: Lockfile, s: Layout, nearest: Location, key: Key, p: Package)
    requires WellFormed(lock, s.tree) && Walk(s.tree.Keys, nearest, key.name).None?
    requires Spells(key, p) && PackageOf(lock, p).Ok?
    ensures Placing(lock, s, nearest, key, Landing([key.name], Add(s, [key.name], p, key)))
  {
    WalkIsNearest(s.tree.Keys, nearest, key.name);
    assert nearest[..0] + [key.name] == [key.name];
    AddIsPlacing(lock, s, nearest, key, [key.name], p);
  }

  /** Where it finds another version, the copy goes in front of it; where it finds this one, that is used. */
  lemma PlaceAtFoundIsPlacing(lock: Lockfile, s: Layout, nearest: Location, key: Key, p: Package, found: Location)
    requires WellFormed(lock, s.tree) && (nearest == [] || nearest in s.tree)
    requires Walk(s.tree.Keys, nearest, key.name) == Some(found)
    requires Spells(key, p) && PackageOf(lock, p).Ok?
    ensures var at := nearest + [key.name];
            s.tree[found].version != p.version && found != at ==> Placing(lock, s, nearest, key, Landing(at, Add(s, at, p, key)))
    ensures s.tree[found].version == p.version ==>
              Placing(lock, s, nearest, key, Landing(found, if key in s.tree[found].contexts then s else Join(s, found, key)))
  {
    WalkIsNearest(s.tree.Keys, nearest, key.name);
    assert NodeOk(lock, s.tree, found);
    if s.tree[found].version == p.version {
      if key in s.tree[found].contexts {
        StayIsPlacing(lock, s, nearest, key, found);
      } else {
        JoinIsPlacing(lock, s, nearest, key, found);
      }
    } else if found != nearest + [key.name] {
      AddIsPlacing(lock, s, nearest, key, nearest + [key.name], p);
    }
  }

  lemma PlaceIsPlacing(lock: Lockfile, s: Layout, requester: Location, key: Key, peer: bool)
    requires WellFormed(lock, s.tree) && (requester == [] || requester in s.tree)
    requires Place(lock, s, requester, key, peer).Ok?
    ensures Placing(lock, s, if peer then Owner(requester) else requester, key, Place(lock, s, requester, key, peer).value)
  {
    var nearest := if peer then Owner(requester) else requester;
    assert nearest == [] || nearest in s.tree by {
      if requester in s.tree { assert NodeOk(lock, s.tree, requester); }
    }
    var p := Package(key.name, WithoutPeers(key.value).value);
    match Walk(s.tree.Keys, nearest, key.name)
    case None =>
      PlaceNowhereIsPlacing(lock, s, nearest, key, p);
    case Some(found) =>
      WalkIsNearest(s.tree.Keys, nearest, key.name);
      assert NodeOk(lock, s.tree, found);
      PlaceAtFoundIsPlacing(lock, s, nearest, key, p, found);
  }
}
