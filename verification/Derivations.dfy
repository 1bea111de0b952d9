/**
 * The derivation from end to end: the root edges, the worklist, the check that
 * every edge still lands where it was recorded, and the entries written.
 */
module Derivations {
  import opened Outcomes
  import opened Versions
  import opened Lockfiles
  import opened Layouts
  import Names

  // -------------------------------------------------------------- root edges

  datatype RootEdge = RootEdge(name: string, range: string, optional: bool)

  function RootEdgesOf(m: Manifest, name: string): seq<RootEdge> {
    (if name in m.dependencies then [RootEdge(name, m.dependencies[name], false)] else []) +
    (if name in m.optionalDependencies then [RootEdge(name, m.optionalDependencies[name], true)] else [])
  }

  function RootEdgesFor(m: Manifest, names: seq<string>): seq<RootEdge> {
    if names == [] then [] else RootEdgesOf(m, names[0]) + RootEdgesFor(m, names[1..])
  }

  /** The published manifest's edges by name, a required one before an optional one. */
  function RootEdges(m: Manifest): seq<RootEdge> {
    RootEdgesFor(m, Names.Sorted(m.dependencies.Keys + m.optionalDependencies.Keys))
  }

  lemma {:induction false} RootEdgesForAreTheSections(m: Manifest, names: seq<string>, e: RootEdge)
    ensures e in RootEdgesFor(m, names) <==>
            && e.name in names
            && var section := if e.optional then m.optionalDependencies else m.dependencies;
               e.name in section && section[e.name] == e.range
  {
    if names != [] {
      RootEdgesForAreTheSections(m, names[1..], e);
    }
  }

  /** By name, and a name's required edge before its optional one. */
  ghost predicate IsBefore(a: RootEdge, b: RootEdge) {
    Names.Less(a.name, b.name) || (a.name == b.name && !a.optional && b.optional)
  }

  ghost predicate InOrder(edges: seq<RootEdge>) {
    forall i, j :: 0 <= i < j < |edges| ==> IsBefore(edges[i], edges[j])
  }

  lemma JoinedInOrder(a: seq<RootEdge>, b: seq<RootEdge>)
    requires InOrder(a) && InOrder(b) && forall x, y :: x in a && y in b ==> IsBefore(x, y)
    ensures InOrder(a + b)
  {
    var all := a + b;
    forall i, j | 0 <= i < j < |all| ensures IsBefore(all[i], all[j]) {
      if i < |a| <= j { assert a[i] in a && b[j - |a|] in b; }
    }
  }

  lemma {:induction false} RootEdgesForAreInOrder(m: Manifest, names: seq<string>)
    requires forall x, y :: 0 <= x < y < |names| ==> Names.Less(names[x], names[y])
    ensures InOrder(RootEdgesFor(m, names))
  {
    if names != [] {
      var first, rest := RootEdgesOf(m, names[0]), RootEdgesFor(m, names[1..]);
      RootEdgesForAreInOrder(m, names[1..]);
      forall x, y | x in first && y in rest ensures IsBefore(x, y) {
        RootEdgesForAreTheSections(m, names[1..], y);
        var k :| 0 < k < |names| && names[k] == y.name;
      }
      JoinedInOrder(first, rest);
    }
  }

  /** The root's edges go by name, and a name's required edge before its optional one. */
  lemma RootEdgesAreInOrder(m: Manifest)
    ensures InOrder(RootEdges(m))
  {
    RootEdgesForAreInOrder(m, Names.Sorted(m.dependencies.Keys + m.optionalDependencies.Keys));
  }

  // ------------------------------------------------------ what importers say

  function EntriesIn(importer: Importer, name: string): seq<ImporterEntry> {
    (if name in importer.dependencies then [importer.dependencies[name]] else []) +
    (if name in importer.optionalDependencies then [importer.optionalDependencies[name]] else []) +
    (if name in importer.devDependencies then [importer.devDependencies[name]] else [])
  }

  /** Every entry for `name`, importer by importer and section by section. */
  function Listed(lock: Lockfile, directories: seq<string>, name: string): seq<ImporterEntry> {
    if directories == [] then
      []
    else
      (if directories[0] in lock.importers then EntriesIn(lock.importers[directories[0]], name) else []) +
      Listed(lock, directories[1..], name)
  }

  /** The entries one at a time, refusing the first that disagrees. */
  function Agreed(entries: seq<ImporterEntry>, name: string, range: string, found: Option<Value>): Result<Option<Value>, Refusal> {
    if entries == [] then Ok(found)
    else if entries[0].specifier != range then Refused(ImporterBehind(name))
    else if found.Some? && found.value != entries[0].version then Refused(ImportersDisagree(name))
    else Agreed(entries[1..], name, range, Some(entries[0].version))
  }

  function ResolvedByImporters(lock: Lockfile, directories: seq<string>, name: string, range: string): Result<Value, Refusal> {
    var found :- Agreed(Listed(lock, directories, name), name, range, None);
    if found.None? then Refused(Unresolved(name))
    else if WithoutPeers(found.value).None? then Refused(NotPinnable(Key(name, found.value)))
    else Ok(found.value)
  }

  /** Some entry asks for another range, or two entries for two versions. */
  ghost predicate Conflict(entries: seq<ImporterEntry>, range: string, found: Option<Value>) {
    exists e, e' :: e in entries && e' in entries &&
      (e.specifier != range || (found.Some? && e.version != found.value) || e.version != e'.version)
  }

  lemma {:induction false} AgreedIsUnanimous(entries: seq<ImporterEntry>, name: string, range: string, found: Option<Value>)
    ensures var r := Agreed(entries, name, range, found);
            if r.Refused? then Conflict(entries, range, found)
            else if entries == [] then r.value == found
            else r.value.Some? && (found.Some? ==> r.value == found) &&
                 forall e :: e in entries ==> e == ImporterEntry(range, r.value.value)
  {
    if entries != [] && entries[0].specifier == range && (found.None? || found.value == entries[0].version) {
      var rest := entries[1..];
      AgreedIsUnanimous(rest, name, range, Some(entries[0].version));
      assert forall e :: e in entries <==> e == entries[0] || e in rest;
      if Agreed(rest, name, range, Some(entries[0].version)).Refused? {
        var e, e' :| e in rest && e' in rest &&
          (e.specifier != range || e.version != entries[0].version || e.version != e'.version);
        assert e in entries && e' in entries && entries[0] in entries;
        assert Conflict(entries, range, found);
      }
    } else if entries != [] {
      assert entries[0] in entries;
    }
  }

  /** Some section of the importer at `directory` resolves `name` so. */
  ghost predicate Lists(lock: Lockfile, directory: string, name: string, entry: ImporterEntry) {
    directory in lock.importers &&
    var importer := lock.importers[directory];
    || (name in importer.dependencies && importer.dependencies[name] == entry)
    || (name in importer.optionalDependencies && importer.optionalDependencies[name] == entry)
    || (name in importer.devDependencies && importer.devDependencies[name] == entry)
  }

  lemma EntriesAreEverySection(lock: Lockfile, directory: string, name: string, entry: ImporterEntry)
    requires directory in lock.importers
    ensures entry in EntriesIn(lock.importers[directory], name) <==> Lists(lock, directory, name, entry)
  {
    var importer := lock.importers[directory];
    var a := if name in importer.dependencies then [importer.dependencies[name]] else [];
    var b := if name in importer.optionalDependencies then [importer.optionalDependencies[name]] else [];
    var c := if name in importer.devDependencies then [importer.devDependencies[name]] else [];
    assert entry in a + b + c <==> entry in a || entry in b || entry in c;
  }

  ghost predicate ListedBySome(lock: Lockfile, directories: seq<string>, name: string, entry: ImporterEntry) {
    exists d :: d in directories && Lists(lock, d, name, entry)
  }

  lemma {:induction false} ListedIsEverySection(lock: Lockfile, directories: seq<string>, name: string, entry: ImporterEntry)
    ensures entry in Listed(lock, directories, name) <==> ListedBySome(lock, directories, name, entry)
  {
    if directories != [] {
      var first, rest := directories[0], directories[1..];
      ListedIsEverySection(lock, rest, name, entry);
      if first in lock.importers { EntriesAreEverySection(lock, first, name, entry); }
      assert forall d :: d in directories <==> d == first || d in rest;
      assert ListedBySome(lock, directories, name, entry) <==> Lists(lock, first, name, entry) || ListedBySome(lock, rest, name, entry);
    }
  }

  /** A name resolves exactly when some importer lists it and all that do agree on this range and one registry version. */
  lemma ResolvedExactlyWhenUnanimous(lock: Lockfile, directories: seq<string>, name: string, range: string, v: Value)
    ensures ResolvedByImporters(lock, directories, name, range) == Ok(v) <==>
            && WithoutPeers(v).Some?
            && (exists e :: ListedBySome(lock, directories, name, e))
            && forall e :: ListedBySome(lock, directories, name, e) ==> e == ImporterEntry(range, v)
  {
    var all := Listed(lock, directories, name);
    AgreedIsUnanimous(all, name, range, None);
    forall e ensures e in all <==> ListedBySome(lock, directories, name, e) {
      ListedIsEverySection(lock, directories, name, e);
    }
    if all != [] { assert all[0] in all; }
  }

  // ------------------------------------------------------------------- begin

  /** The layout after the root edges, and what the root itself holds. */
  datatype Rooted = Rooted(
    layout: Layout,
    required: map<string, Location>,
    optional: map<string, Location>,
    inBundle: map<Location, string>)

  const Bare := Rooted(Layout(map[], []), map[], map[], map[])

  function Root(lock: Lockfile, m: Manifest, importers: seq<string>, r: Rooted, e: RootEdge): (next: Result<Rooted, Refusal>)
    requires QueuedIsPlaced(r.layout)
    ensures next.Ok? ==> QueuedIsPlaced(next.value.layout)
  {
    if e.name in m.bundleDependencies then
      Ok(r.(inBundle := r.inBundle[[e.name] := e.range]))
    else
      var version :- ResolvedByImporters(lock, importers, e.name, e.range);
      PlaceLands(lock, r.layout, [], Key(e.name, version), false);
      var landing :- Place(lock, r.layout, [], Key(e.name, version), false);
      Ok(if e.optional then r.(layout := landing.layout, optional := r.optional[e.name := landing.at])
         else r.(layout := landing.layout, required := r.required[e.name := landing.at]))
  }

  function RootAll(lock: Lockfile, m: Manifest, importers: seq<string>, r: Rooted, edges: seq<RootEdge>): (next: Result<Rooted, Refusal>)
    requires QueuedIsPlaced(r.layout)
    ensures next.Ok? ==> QueuedIsPlaced(next.value.layout)
    decreases |edges|
  {
    if edges == [] then
      Ok(r)
    else
      var next :- Root(lock, m, importers, r, edges[0]);
      RootAll(lock, m, importers, next, edges[1..])
  }

  function Begin(lock: Lockfile, m: Manifest, importers: seq<string>): (r: Result<Rooted, Refusal>)
    ensures r.Ok? ==> QueuedIsPlaced(r.value.layout)
  {
    if exists i :: 0 <= i < |importers| && importers[i] !in lock.importers then
      Refused(NoImporter)
    else
      RootAll(lock, m, importers, Bare, RootEdges(m))
  }

  /** Nothing begins without every importer there. */
  lemma BeginNeedsEveryImporter(lock: Lockfile, m: Manifest, importers: seq<string>)
    ensures (exists d :: d in importers && d !in lock.importers) ==> Begin(lock, m, importers) == Refused(NoImporter)
    ensures Begin(lock, m, importers).Ok? ==> forall d :: d in importers ==> d in lock.importers
  {
    if d :| d in importers && d !in lock.importers {
      var i :| 0 <= i < |importers| && importers[i] == d;
      assert importers[i] !in lock.importers;
    }
  }

  /** The keys the root asks for: what its unbundled edges resolve to. */
  ghost function RootKeys(lock: Lockfile, m: Manifest, importers: seq<string>): set<Key> {
    set e | e in RootEdges(m) && e.name !in m.bundleDependencies
            && ResolvedByImporters(lock, importers, e.name, e.range).Ok?
      :: Key(e.name, ResolvedByImporters(lock, importers, e.name, e.range).value)
  }

  // --------------------------------------------------------------- the check

  predicate Resolves(present: set<Location>, from: Location, landed: map<string, Location>) {
    forall n :: n in landed ==> Walk(present, from, n) == Some(landed[n])
  }

  /** Every recorded edge is found again by the walk, in the finished tree. */
  predicate LayoutHolds(tree: Tree, inBundle: map<Location, string>) {
    var present := tree.Keys + inBundle.Keys;
    forall l :: l in tree ==>
      && Resolves(present, l, tree[l].required)
      && Resolves(present, l, tree[l].optional)
      && Resolves(present, Owner(l), tree[l].peers)
  }

  /** A derivation that placed everything and passed the check. */
  ghost predicate Derives(lock: Lockfile, m: Manifest, importers: seq<string>, turns: nat, r: Rooted, s: Layout) {
    && Begin(lock, m, importers) == Ok(r)
    && After(lock, r.layout, turns) == Ok(s)
    && s.queue == []
    && LayoutHolds(s.tree, r.inBundle)
  }

  // ------------------------------------------------------------- what is written

  datatype Entry =
    | InBundle(version: string)
    | Fetched(version: string, integrity: string, dependencies: map<string, string>,
              optionalDependencies: map<string, string>, peers: map<string, string>, optionalPeers: set<string>,
              hasInstallScript: bool, optional: bool)

  function EntryFor(lock: Lockfile, node: Placed, builds: set<string>, required: bool): Result<Entry, Refusal> {
    var known :- PackageOf(lock, Package(node.name, node.version));
    if known.integrity.None? then
      Refused(NoIntegrity(Package(node.name, node.version)))
    else
      var r := if node.resolved.Some? then node.resolved.value else Resolved(map[], map[]);
      Ok(Fetched(node.version, known.integrity.value, r.dependencies, r.optionalDependencies, known.peers, known.optionalPeers,
                 node.name in builds, !required))
  }

  /** The entry at each location: the tarball's own copy where there is one. */
  ghost predicate Writes(lock: Lockfile, r: Rooted, s: Layout, builds: set<string>, required: set<Location>, entries: map<Location, Entry>) {
    && entries.Keys == s.tree.Keys + r.inBundle.Keys
    && (forall l :: l in r.inBundle ==> entries[l] == InBundle(r.inBundle[l]))
    && forall l :: l in s.tree && l !in r.inBundle ==>
         EntryFor(lock, s.tree[l], builds, l in required) == Ok(entries[l])
  }
}
