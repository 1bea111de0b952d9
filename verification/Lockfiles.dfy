/**
 * The parts of a pnpm lockfile and of a published manifest the derivation
 * reads, as values that have already been parsed.
 */
module Lockfiles {
  import opened Outcomes
  import Names
  import opened Versions

  /**
   * A snapshot key: a name, `@`, and a version that still carries its peer
   * context. The two halves are kept apart, so a name holding an `@` is not
   * ambiguous; `Spell` is the one string the lockfile is indexed by.
   */
  datatype Key = Key(name: string, value: Value)

  /** The registry version in front of the peer context, if that is what this is. */
  function WithoutPeers(value: Value): Option<string> {
    if value.Registry? then Some(value.version) else None
  }

  /** A package whatever peers it was resolved against. */
  datatype Package = Package(name: string, version: string)

  function Spell(name: string, version: string): string {
    name + "@" + version
  }

  datatype PackageEntry = PackageEntry(
    integrity: Option<string>,
    bundles: bool,
    peers: map<string, string>,
    optionalPeers: set<string>)

  datatype Snapshot = Snapshot(
    dependencies: map<string, Value>,
    optionalDependencies: map<string, Value>)

  datatype ImporterEntry = ImporterEntry(specifier: string, version: Value)

  datatype Importer = Importer(
    dependencies: map<string, ImporterEntry>,
    optionalDependencies: map<string, ImporterEntry>,
    devDependencies: map<string, ImporterEntry>)

  datatype Lockfile = Lockfile(
    importers: map<string, Importer>,
    packages: map<string, PackageEntry>,
    snapshots: map<string, Snapshot>)

  datatype Manifest = Manifest(
    dependencies: map<string, string>,
    optionalDependencies: map<string, string>,
    bundleDependencies: set<string>)

  /** Why a derivation stops instead of writing a shrinkwrap. */
  datatype Refusal =
    | NoImporter
    | NotPinnable(key: Key)
    | AlreadySits(key: Key)
    | NoPackage(package: Package)
    | BundlesItsOwn(package: Package)
    | NoSnapshot(key: Key)
    | ContextsDisagree(package: Package)
    | ImportersDisagree(name: string)
    | ImporterBehind(name: string)
    | Unresolved(name: string)
    | LandsElsewhere
    | NoIntegrity(package: Package)

  // ------------------------------------------------------------------- edges

  /** One line of a snapshot's `dependencies` or `optionalDependencies`. */
  datatype Edge = Edge(name: string, value: Value, optional: bool) {
    function Target(): Key {
      Key(name, value)
    }
  }

  function SectionEdges(names: seq<string>, section: map<string, Value>, optional: bool): (edges: seq<Edge>)
    requires forall n :: n in names ==> n in section
    ensures |edges| == |names|
    ensures forall i :: 0 <= i < |names| ==> edges[i] == Edge(names[i], section[names[i]], optional)
  {
    seq(|names|, i requires 0 <= i < |names| => Edge(names[i], section[names[i]], optional))
  }

  /** Both sections, the required one first, each by name. */
  function Edges(snapshot: Snapshot): seq<Edge> {
    SectionEdges(Names.Sorted(snapshot.dependencies.Keys), snapshot.dependencies, false) +
    SectionEdges(Names.Sorted(snapshot.optionalDependencies.Keys), snapshot.optionalDependencies, true)
  }

  lemma EdgesAreTheSections(snapshot: Snapshot, e: Edge)
    ensures e in Edges(snapshot) <==>
            var section := if e.optional then snapshot.optionalDependencies else snapshot.dependencies;
            e.name in section && section[e.name] == e.value
  {
    var section := if e.optional then snapshot.optionalDependencies else snapshot.dependencies;
    var names := Names.Sorted(section.Keys);
    var listed := SectionEdges(names, section, e.optional);
    assert forall x :: x in listed ==> x in Edges(snapshot);
    if e.name in names {
      var i :| 0 <= i < |names| && names[i] == e.name;
      assert listed[i].name == e.name;
    }
  }

  /** No section names a dependency twice. */
  lemma EdgesAreDistinct(snapshot: Snapshot, i: nat, j: nat)
    requires i < j < |Edges(snapshot)|
    ensures var edges := Edges(snapshot);
            edges[i].optional == edges[j].optional ==> edges[i].name != edges[j].name
  {
  }

  /** Every required edge comes before every optional one, and each kind goes by name. */
  lemma EdgesAreInOrder(snapshot: Snapshot, i: nat, j: nat)
    requires i < j < |Edges(snapshot)|
    ensures var a, b := Edges(snapshot)[i], Edges(snapshot)[j];
            if a.optional == b.optional then Names.Less(a.name, b.name) else b.optional
  {
    var required := SectionEdges(Names.Sorted(snapshot.dependencies.Keys), snapshot.dependencies, false);
    assert forall n :: 0 <= n < |Edges(snapshot)| ==> (Edges(snapshot)[n].optional <==> n >= |required|);
  }

  /** `packageOf`: the entry for a package this derivation can place. */
  function PackageOf(lock: Lockfile, p: Package): Result<PackageEntry, Refusal> {
    var spelled := Spell(p.name, p.version);
    if spelled !in lock.packages then Refused(NoPackage(p))
    else if lock.packages[spelled].bundles then Refused(BundlesItsOwn(p))
    else Ok(lock.packages[spelled])
  }

  /** The package a key resolves, when its version is one a registry serves. */
  predicate Spells(k: Key, p: Package) {
    k.name == p.name && WithoutPeers(k.value) == Some(p.version)
  }

  /** A peer the dependent accepts but does not install. */
  predicate Skipped(known: PackageEntry, name: string) {
    name in known.peers && name in known.optionalPeers
  }

  /** An edge of snapshot `k` that the derivation follows. */
  predicate Follows(lock: Lockfile, k: Key, e: Edge) {
    && Spell(k.name, k.value.Text()) in lock.snapshots
    && e in Edges(lock.snapshots[Spell(k.name, k.value.Text())])
    && WithoutPeers(k.value).Some?
    && var known := PackageOf(lock, Package(k.name, WithoutPeers(k.value).value));
       known.Ok? && !(e.name in known.value.peers && e.name in known.value.optionalPeers)
  }
}
