/**
 * The derivation as it runs: the tree and the worklist updated in place, each
 * method against the function that says what it does.
 */
module Deriver {
  import opened Outcomes
  import opened Lockfiles
  import opened Layouts
  import opened LayoutInvariants
  import opened Derivations
  import opened Entries
  import BundledPins
  import Resolution
  import Termination
  import Tops

  /** The places a package at `owner` is resolved from, in the order Node tries them. */
  method OwnersFrom(owner: Location) returns (owners: seq<Location>)
    ensures |owners| == |owner| + 1
    ensures forall i :: 0 <= i < |owners| ==> owners[i] == owner[..|owner| - i]
  {
    owners := [owner];
    var at := owner;
    while at != []
      invariant |at| <= |owner| && at == owner[..|at|]
      invariant |owners| == |owner| - |at| + 1
      invariant forall i :: 0 <= i < |owners| ==> owners[i] == owner[..|owner| - i]
      decreases |at|
    {
      at := Owner(at);
      owners := owners + [at];
    }
  }

  /** The nearest directory above `from` whose `node_modules` holds `name`, tried in order. */
  method Lookup(present: set<Location>, from: Location, name: string) returns (found: Option<Location>)
    ensures found == Walk(present, from, name)
  {
    var owners := OwnersFrom(from);
    WalkIsNearest(present, from, name);
    for i := 0 to |owners|
      invariant forall j :: 0 <= j < i ==> owners[j] + [name] !in present
    {
      var at := owners[i] + [name];
      if at in present {
        assert forall n :: |at| <= n <= |from| ==> from[..n] == owners[|from| - n];
        assert IsNearest(present, from, name, at);
        return Some(at);
      }
    }
    assert forall n :: 0 <= n <= |from| ==> from[..n] == owners[|from| - n];
    return None;
  }

  class Derivation {
    const lock: Lockfile
    const manifest: Manifest
    const importers: seq<string>
    var tree: Tree
    var queue: seq<Item>
    var required: map<string, Location>
    var optional: map<string, Location>
    var inBundle: map<Location, string>

    constructor (lock: Lockfile, manifest: Manifest, importers: seq<string>)
      ensures this.lock == lock && this.manifest == manifest && this.importers == importers
      ensures State() == Bare
    {
      this.lock, this.manifest, this.importers := lock, manifest, importers;
      tree, queue, required, optional, inBundle := map[], [], map[], map[], map[];
    }

    ghost function View(): Layout
      reads this`tree, this`queue
    {
      Layout(tree, queue)
    }

    ghost function State(): Rooted
      reads this
    {
      Rooted(View(), required, optional, inBundle)
    }

    /** Put `key` where `requester` resolves it, and answer where that is. */
    method Place(requester: Location, key: Key, peer: bool) returns (r: Result<Location, Refusal>)
      modifies this`tree, this`queue
      ensures var placed := Layouts.Place(lock, old(View()), requester, key, peer);
              match placed
              case Ok(landing) => r == Ok(landing.at) && View() == landing.layout
              case Refused(why) => r == Refused(why) && View() == old(View())
    {
      if WithoutPeers(key.value).None? {
        return Refused(NotPinnable(key));
      }
      var version := WithoutPeers(key.value).value;
      var nearest := if peer then Owner(requester) else requester;
      var location := [key.name];
      var found := Lookup(tree.Keys, nearest, key.name);
      if found.Some? {
        var existing := tree[found.value];
        if existing.version == version {
          if key !in existing.contexts {
            tree := tree[found.value := existing.(contexts := existing.contexts + {key})];
            queue := queue + [Item(found.value, key)];
          }
          return Ok(found.value);
        }
        location := nearest + [key.name];
        if found.value == location {
          return Refused(AlreadySits(key));
        }
      }
      var known := PackageOf(lock, Package(key.name, version));
      if known.Refused? {
        return Refused(known.why);
      }
      tree := tree[location := Fresh(Package(key.name, version), key)];
      queue := queue + [Item(location, key)];
      return Ok(location);
    }

    /** One root edge: the tarball's own copy, or a package to place. */
    method PlaceRoot(edge: RootEdge) returns (r: Result<bool, Refusal>)
      requires QueuedIsPlaced(View())
      modifies this
      ensures match Root(lock, manifest, importers, old(State()), edge)
              case Ok(after) => r.Ok? && State() == after
              case Refused(why) => r == Refused(why)
    {
      if edge.name in manifest.bundleDependencies {
        inBundle := inBundle[[edge.name] := edge.range];
        return Ok(true);
      }
      var version := ResolvedByImporters(lock, importers, edge.name, edge.range);
      if version.Refused? { return Refused(version.why); }
      var landed := Place([], Key(edge.name, version.value), false);
      if landed.Refused? { return Refused(landed.why); }
      if edge.optional {
        optional := optional[edge.name := landed.value];
      } else {
        required := required[edge.name := landed.value];
      }
      return Ok(true);
    }

    method PlaceAll(edges: seq<RootEdge>) returns (r: Result<bool, Refusal>)
      requires QueuedIsPlaced(View())
      modifies this
      ensures match RootAll(lock, manifest, importers, old(State()), edges)
              case Ok(after) => r.Ok? && State() == after
              case Refused(why) => r == Refused(why)
    {
      ghost var start := State();
      var i := 0;
      assert edges[0..] == edges;
      while i < |edges|
        invariant i <= |edges| && QueuedIsPlaced(View())
        invariant RootAll(lock, manifest, importers, start, edges) == RootAll(lock, manifest, importers, State(), edges[i..])
      {
        assert edges[i..][0] == edges[i] && edges[i..][1..] == edges[i + 1..];
        var placed := PlaceRoot(edges[i]);
        if placed.Refused? { return placed; }
        i := i + 1;
      }
      return Ok(true);
    }

    /** Every importer there, and then every root edge in turn. */
    method PlaceRoots() returns (r: Result<bool, Refusal>)
      requires State() == Bare
      modifies this
      ensures match Begin(lock, manifest, importers)
              case Ok(after) => r.Ok? && State() == after
              case Refused(why) => r == Refused(why)
    {
      for i := 0 to |importers|
        invariant State() == Bare
        invariant forall j :: 0 <= j < i ==> importers[j] in lock.importers
      {
        if importers[i] !in lock.importers { return Refused(NoImporter); }
      }
      r := PlaceAll(RootEdges(manifest));
    }

    /** The pair at the head of the worklist: every edge of its snapshot, then the two contexts compared. */
    method Visit() returns (r: Result<bool, Refusal>)
      requires queue != [] && QueuedIsPlaced(View())
      modifies this`tree, this`queue
      ensures match Layouts.Visit(lock, old(View()))
              case Ok(after) => r.Ok? && View() == after
              case Refused(why) => r == Refused(why)
    {
      var item := queue[0];
      queue := queue[1..];
      var spelled := Spell(item.key.name, item.key.value.Text());
      if spelled !in lock.snapshots { return Refused(NoSnapshot(item.key)); }
      var p := Package(tree[item.at].name, tree[item.at].version);
      var known := PackageOf(lock, p);
      if known.Refused? { return Refused(known.why); }
      var resolved := Resolved(map[], map[]);
      var edges := Edges(lock.snapshots[spelled]);
      ghost var start := Progress(View(), resolved);
      var i := 0;
      assert edges[0..] == edges;
      while i < |edges|
        invariant i <= |edges| && item.at in tree && QueuedIsPlaced(View())
        invariant FollowAll(lock, known.value, item.at, start, edges) ==
                  FollowAll(lock, known.value, item.at, Progress(View(), resolved), edges[i..])
      {
        var e := edges[i];
        assert edges[i..][0] == e && edges[i..][1..] == edges[i + 1..];
        i := i + 1;
        if Skipped(known.value, e.name) { continue; }
        ghost var before := Progress(View(), resolved);
        PlaceLands(lock, View(), item.at, e.Target(), e.name in known.value.peers);
        var landed := Place(item.at, e.Target(), e.name in known.value.peers);
        if landed.Refused? { return Refused(landed.why); }
        var node := tree[item.at];
        if e.name in known.value.peers {
          tree := tree[item.at := node.(peers := node.peers[e.name := landed.value])];
        } else {
          resolved := RecordVersion(resolved, e, tree[landed.value].version);
          tree := tree[item.at := if e.optional then node.(optional := node.optional[e.name := landed.value])
                                  else node.(required := node.required[e.name := landed.value])];
        }
        assert Follow(lock, known.value, item.at, before, e) == Ok(Progress(View(), resolved));
      }
      var node := tree[item.at];
      if node.resolved.Some? && node.resolved.value != resolved {
        return Refused(ContextsDisagree(Package(node.name, node.version)));
      }
      tree := tree[item.at := node.(resolved := Some(resolved))];
      return Ok(true);
    }

    /** The worklist, for at most `limit` turns; `Ok(false)` when there is still something on it. */
    method Drain(limit: nat) returns (r: Result<bool, Refusal>)
      requires QueuedIsPlaced(View())
      modifies this`tree, this`queue
      ensures match After(lock, old(View()), limit)
              case Ok(after) => r == Ok(after.queue == []) && View() == after
              case Refused(why) => r == Refused(why)
    {
      ghost var start := View();
      var turns: nat := 0;
      while queue != [] && turns < limit
        invariant QueuedIsPlaced(View()) && turns <= limit
        invariant After(lock, start, turns) == Ok(View())
        decreases limit - turns
      {
        ghost var before := View();
        var visited := Visit();
        OneMore(lock, start, turns, before);
        turns := turns + 1;
        if visited.Refused? {
          HaltedStays(lock, start, turns, limit);
          return visited;
        }
      }
      HaltedStays(lock, start, turns, limit);
      return Ok(queue == []);
    }

    /** Every edge resolved again, the way Node and npm will. */
    method Check() returns (holds: bool)
      ensures holds == LayoutHolds(tree, inBundle)
    {
      var present := tree.Keys + inBundle.Keys;
      var left := tree.Keys;
      while left != {}
        invariant left <= tree.Keys
        invariant forall l :: l in tree && l !in left ==> NodeHolds(present, l, tree[l])
      {
        var l :| l in left;
        var node := tree[l];
        var required := CheckEdges(present, l, node.required);
        var optional := CheckEdges(present, l, node.optional);
        var peers := CheckEdges(present, Owner(l), node.peers);
        if !(required && optional && peers) { return false; }
        left := left - {l};
      }
      return true;
    }

    /** The entry at every location, or the package that cannot be pinned. */
    method Write(builds: set<string>, required: set<Location>) returns (r: Result<map<Location, Entry>, Refusal>)
      ensures r.Ok? ==> Writes(lock, State(), View(), builds, required, r.value)
      ensures r.Refused? ==> CannotWrite(lock, State(), View(), builds, required, r.why)
    {
      var entries := map[];
      var left := tree.Keys + inBundle.Keys;
      while left != {}
        invariant left <= tree.Keys + inBundle.Keys
        invariant entries.Keys == tree.Keys + inBundle.Keys - left
        invariant forall l :: l in inBundle && l !in left ==> entries[l] == InBundle(inBundle[l])
        invariant forall l :: l in tree && l !in inBundle && l !in left ==>
                    EntryFor(lock, tree[l], builds, l in required) == Ok(entries[l])
      {
        var l :| l in left;
        if l in inBundle {
          entries := entries[l := InBundle(inBundle[l])];
        } else {
          var entry := EntryFor(lock, tree[l], builds, l in required);
          if entry.Refused? { return Refused(entry.why); }
          entries := entries[l := entry.value];
        }
        left := left - {l};
      }
      return Ok(entries);
    }

    /** The check, the required chains, and the entries. */
    method Finish(ghost rooted: Rooted, builds: set<string>) returns (r: Result<Option<map<Location, Entry>>, Refusal>)
      requires rooted.required == required && rooted.inBundle == inBundle
      ensures Finishes(lock, rooted, View(), builds, r)
    {
      var holds := Check();
      if !holds { return Refused(LandsElsewhere); }
      var needed := RequiredLocations(tree, Targets(required));
      assert Members(Targets(required)) == required.Values;
      assert IsNeeded(tree, required.Values, needed);
      var written := Write(builds, needed);
      if written.Refused? { return Refused(written.why); }
      return Ok(Some(written.value));
    }

    /** The whole derivation, its worklist given `limit` turns; `Ok(None)` when they were not enough. */
    method Derive(limit: nat, builds: set<string>) returns (r: Result<Option<map<Location, Entry>>, Refusal>)
      requires State() == Bare
      modifies this
      ensures Outcome(lock, manifest, importers, limit, builds, r)
    {
      var placed := PlaceRoots();
      if placed.Refused? { return Refused(placed.why); }
      ghost var rooted := State();
      var drained := Drain(limit);
      if drained.Refused? { return Refused(drained.why); }
      if !drained.value { return Ok(None); }
      r := Finish(rooted, builds);
    }
  }

  ghost predicate IsNeeded(tree: Tree, roots: set<Location>, needed: set<Location>) {
    forall l :: l in needed <==> IsRequired(tree, roots, l)
  }

  /** What a drained worklist comes to: the check first, then an entry for everything or a package that cannot be pinned. */
  ghost predicate Finishes(lock: Lockfile, rooted: Rooted, s: Layout, builds: set<string>,
                           r: Result<Option<map<Location, Entry>>, Refusal>) {
    if !LayoutHolds(s.tree, rooted.inBundle) then
      r == Refused(LandsElsewhere)
    else
      exists needed :: IsNeeded(s.tree, rooted.required.Values, needed) && Wrote(lock, rooted, s, builds, needed, r)
  }

  ghost predicate Wrote(lock: Lockfile, rooted: Rooted, s: Layout, builds: set<string>, needed: set<Location>,
                        r: Result<Option<map<Location, Entry>>, Refusal>) {
    match r
    case Ok(entries) => entries.Some? && Writes(lock, rooted, s, builds, needed, entries.value)
    case Refused(why) => CannotWrite(lock, rooted, s, builds, needed, why)
  }

  ghost predicate CannotWrite(lock: Lockfile, rooted: Rooted, s: Layout, builds: set<string>, needed: set<Location>, why: Refusal) {
    exists l :: l in s.tree && l !in rooted.inBundle && EntryFor(lock, s.tree[l], builds, l in needed) == Refused(why)
  }

  /** What the derivation answers, whichever way it goes. */
  ghost predicate Outcome(lock: Lockfile, m: Manifest, importers: seq<string>, limit: nat, builds: set<string>,
                          r: Result<Option<map<Location, Entry>>, Refusal>) {
    match Begin(lock, m, importers)
    case Refused(why) => r == Refused(why)
    case Ok(rooted) =>
      match After(lock, rooted.layout, limit)
      case Refused(why) => r == Refused(why)
      case Ok(s) => if s.queue != [] then r == Ok(None) else Finishes(lock, rooted, s, builds, r)
  }

  predicate NodeHolds(present: set<Location>, l: Location, node: Placed) {
    Resolves(present, l, node.required) && Resolves(present, l, node.optional) && Resolves(present, Owner(l), node.peers)
  }

  /** Each edge of one node, looked up where it was recorded. */
  method CheckEdges(present: set<Location>, from: Location, landed: map<string, Location>) returns (holds: bool)
    ensures holds == Resolves(present, from, landed)
  {
    var left := landed.Keys;
    while left != {}
      invariant left <= landed.Keys
      invariant forall n :: n in landed && n !in left ==> Walk(present, from, n) == Some(landed[n])
    {
      var n :| n in left;
      var found := Lookup(present, from, n);
      if found != Some(landed[n]) { return false; }
      left := left - {n};
    }
    return true;
  }

  lemma {:induction false} HaltedStays(lock: Lockfile, s: Layout, turns: nat, limit: nat)
    requires QueuedIsPlaced(s) && turns <= limit && (Halted(After(lock, s, turns)) || turns == limit)
    ensures After(lock, s, limit) == After(lock, s, turns)
    decreases limit
  {
    if turns < limit { HaltedStays(lock, s, turns, limit - 1); }
  }

  // ----------------------------------------------------------- what it delivers

  /** A derivation that answers with entries placed everything, passed the check, and wrote those. */
  lemma AnsweringMeansDeriving(lock: Lockfile, m: Manifest, importers: seq<string>, limit: nat, builds: set<string>,
                               entries: map<Location, Entry>)
    returns (rooted: Rooted, s: Layout, needed: set<Location>)
    requires Outcome(lock, m, importers, limit, builds, Ok(Some(entries)))
    ensures Derives(lock, m, importers, limit, rooted, s)
    ensures IsNeeded(s.tree, rooted.required.Values, needed) && Writes(lock, rooted, s, builds, needed, entries)
  {
    rooted := Begin(lock, m, importers).value;
    s := After(lock, rooted.layout, limit).value;
    needed :| IsNeeded(s.tree, rooted.required.Values, needed) && Wrote(lock, rooted, s, builds, needed, Ok(Some(entries)));
  }

  /**
   * Whatever is delivered, every edge is satisfied, the root's own included,
   * exactly when every written edge to a bundled package asks for its pin.
   */
  lemma DeliveredIsSatisfiedExactlyWhenPinsAreMet(lock: Lockfile, m: Manifest, importers: seq<string>, limit: nat, builds: set<string>,
                                                  entries: map<Location, Entry>)
    requires Outcome(lock, m, importers, limit, builds, Ok(Some(entries)))
    requires BundledPins.BundledAtOneVersion(lock, m, importers)
    ensures BundledPins.AllSatisfied(lock, m, importers, entries) <==> BundledPins.PinsAreMet(lock, m, importers)
  {
    var rooted, s, needed := AnsweringMeansDeriving(lock, m, importers, limit, builds, entries);
    BundledPins.AllSatisfiedExactlyWhenPinsAreMet(lock, m, importers, limit, rooted, s, builds, needed, entries);
  }

  /** A delivered entry is optional exactly when no chain of required edges and peers leads to it from what `dependencies` names. */
  lemma OptionalExactlyWithoutARequiredChain(lock: Lockfile, m: Manifest, importers: seq<string>, limit: nat, builds: set<string>,
                                             entries: map<Location, Entry>, l: Location)
    requires Outcome(lock, m, importers, limit, builds, Ok(Some(entries))) && l in entries && entries[l].Fetched?
    ensures exists rooted, s :: Derives(lock, m, importers, limit, rooted, s) &&
              (entries[l].optional <==> !IsRequired(s.tree, Tops.RequiredRoots(m), l))
  {
    var rooted, s, needed := AnsweringMeansDeriving(lock, m, importers, limit, builds, entries);
    Tops.RootHoldsTheManifest(lock, m, importers, rooted);
    assert l in s.tree && l !in rooted.inBundle;
    assert EntryFor(lock, s.tree[l], builds, l in needed) == Ok(entries[l]);
  }

  /** Where circles are of names at one version there are turns enough, and the derivation always answers. */
  lemma DerivationsAnswerWithCirclesAtOneVersion(lock: Lockfile, m: Manifest, importers: seq<string>, limit: nat,
                                                 builds: set<string>, r: Result<Option<map<Location, Entry>>, Refusal>)
    requires Outcome(lock, m, importers, limit, builds, r)
    requires Termination.CirclesAtOneVersion(lock, Termination.ReachedKeys(lock, m, importers))
    requires limit >= |Termination.Cells(Termination.ReachedKeys(lock, m, importers))|
    ensures r != Ok(None)
  {
    if Begin(lock, m, importers).Ok? {
      Termination.RunsEndWithCirclesAtOneVersion(lock, m, importers, Begin(lock, m, importers).value, limit);
    }
  }

  // ------------------------------------------------- what it refuses at the end

  /** From `from`, Node finds some recorded edge's package at another place than was recorded, or nowhere. */
  ghost predicate IsElsewhere(present: set<Location>, from: Location, landed: map<string, Location>) {
    exists n :: n in landed && !IsNearest(present, from, n, landed[n])
  }

  /** Something recorded for the node at `l` is not where Node finds it: an edge from the node, or a peer from its owner. */
  ghost predicate IsMoved(tree: Tree, inBundle: map<Location, string>, l: Location)
    requires l in tree
  {
    var present := tree.Keys + inBundle.Keys;
    || IsElsewhere(present, l, tree[l].required) || IsElsewhere(present, l, tree[l].optional)
    || IsElsewhere(present, if l == [] then [] else l[..|l| - 1], tree[l].peers)
  }

  lemma ResolvesExactly(present: set<Location>, from: Location, landed: map<string, Location>)
    ensures Resolves(present, from, landed) <==> !IsElsewhere(present, from, landed)
  {
    forall n | n in landed ensures Walk(present, from, n) == Some(landed[n]) <==> IsNearest(present, from, n, landed[n]) {
      WalkIsNearest(present, from, n);
    }
  }

  /** The check refuses exactly when Node would find something recorded elsewhere. */
  lemma CheckRefusesExactly(tree: Tree, inBundle: map<Location, string>)
    ensures !LayoutHolds(tree, inBundle) <==> exists l :: l in tree && IsMoved(tree, inBundle, l)
  {
    var present := tree.Keys + inBundle.Keys;
    forall l | l in tree ensures NodeHolds(present, l, tree[l]) <==> !IsMoved(tree, inBundle, l) {
      ResolvesExactly(present, l, tree[l].required);
      ResolvesExactly(present, l, tree[l].optional);
      ResolvesExactly(present, Owner(l), tree[l].peers);
    }
    assert LayoutHolds(tree, inBundle) <==> forall l :: l in tree ==> NodeHolds(present, l, tree[l]);
  }

  /** The lockfile has the package placed at `l`, and no integrity for it. */
  ghost predicate LacksIntegrity(lock: Lockfile, tree: Tree, l: Location, why: Refusal)
    requires l in tree && l != []
  {
    var spelled := l[|l| - 1] + "@" + tree[l].version;
    && spelled in lock.packages && lock.packages[spelled].integrity.None?
    && why == NoIntegrity(Package(l[|l| - 1], tree[l].version))
  }

  lemma RefusedEntryLacksIntegrity(lock: Lockfile, tree: Tree, l: Location, builds: set<string>, required: bool, why: Refusal)
    requires l in tree && NodeOk(lock, tree, l) && EntryFor(lock, tree[l], builds, required) == Refused(why)
    ensures LacksIntegrity(lock, tree, l, why)
  {
  }

  lemma RefusedAtTheEnd(lock: Lockfile, rooted: Rooted, s: Layout, builds: set<string>, why: Refusal) returns (needed: set<Location>)
    requires LayoutHolds(s.tree, rooted.inBundle) && Finishes(lock, rooted, s, builds, Refused(why))
    ensures CannotWrite(lock, rooted, s, builds, needed, why)
  {
    needed :| IsNeeded(s.tree, rooted.required.Values, needed) && Wrote(lock, rooted, s, builds, needed, Refused(why));
  }

  lemma PlacedIsOk(lock: Lockfile, m: Manifest, importers: seq<string>, limit: nat, rooted: Rooted, s: Layout)
    requires Derives(lock, m, importers, limit, rooted, s)
    ensures WellFormed(lock, s.tree)
  {
    Resolution.DerivedIsComplete(lock, m, importers, limit, rooted, s);
  }

  /**
   * Once the worklist is empty there are two ways left to refuse, and each is
   * taken for a reason: something recorded that Node finds elsewhere, or, with
   * nothing like that, a package to be fetched that has no integrity.
   */
  lemma FinishRefusesForAReason(lock: Lockfile, m: Manifest, importers: seq<string>, limit: nat, builds: set<string>,
                                rooted: Rooted, s: Layout, why: Refusal)
    requires Begin(lock, m, importers) == Ok(rooted) && After(lock, rooted.layout, limit) == Ok(s) && s.queue == []
    requires Outcome(lock, m, importers, limit, builds, Refused(why))
    ensures if exists l :: l in s.tree && IsMoved(s.tree, rooted.inBundle, l) then why == LandsElsewhere
            else exists l :: l in s.tree && l != [] && l !in rooted.inBundle && LacksIntegrity(lock, s.tree, l, why)
  {
    CheckRefusesExactly(s.tree, rooted.inBundle);
    if LayoutHolds(s.tree, rooted.inBundle) {
      PlacedIsOk(lock, m, importers, limit, rooted, s);
      var needed := RefusedAtTheEnd(lock, rooted, s, builds, why);
      var l :| l in s.tree && l !in rooted.inBundle && EntryFor(lock, s.tree[l], builds, l in needed) == Refused(why);
      RefusedEntryLacksIntegrity(lock, s.tree, l, builds, l in needed, why);
    }
  }
}
