/** When the root edges can all be placed: what the derivation needs before its worklist starts. */
module Roots {
  import opened Outcomes
  import opened Versions
  import opened Lockfiles
  import opened Layouts
  import opened Derivations
  import Names

  /** The lockfile has this registry version of a package, and the package brings only itself. */
  ghost predicate IsKept(lock: Lockfile, name: string, version: string) {
    var spelled := name + "@" + version;
    spelled in lock.packages && !lock.packages[spelled].bundles
  }

  /** The importers that list `name` all list it at `range` and at one version, and the lockfile keeps that one. */
  ghost predicate IsThere(lock: Lockfile, importers: seq<string>, name: string, range: string) {
    && (exists e :: ListedBySome(lock, importers, name, e))
    && forall e :: ListedBySome(lock, importers, name, e) ==>
         && e.specifier == range
         && (forall e' :: ListedBySome(lock, importers, name, e') ==> e'.version == e.version)
         && WithoutPeers(e.version).Some? && IsKept(lock, name, WithoutPeers(e.version).value)
  }

  lemma ThereIsResolvedAndKept(lock: Lockfile, importers: seq<string>, name: string, range: string)
    ensures var v := ResolvedByImporters(lock, importers, name, range);
            && (v.Ok? ==> WithoutPeers(v.value).Some?)
            && (IsThere(lock, importers, name, range) <==> v.Ok? && IsKept(lock, name, WithoutPeers(v.value).value))
  {
    var v := ResolvedByImporters(lock, importers, name, range);
    if v.Ok? {
      ResolvedExactlyWhenUnanimous(lock, importers, name, range, v.value);
    }
    if IsThere(lock, importers, name, range) {
      var e :| ListedBySome(lock, importers, name, e);
      ResolvedExactlyWhenUnanimous(lock, importers, name, range, e.version);
    }
  }

  lemma ResolvedOnce(lock: Lockfile, importers: seq<string>, name: string, range: string, range': string)
    requires ResolvedByImporters(lock, importers, name, range).Ok? && ResolvedByImporters(lock, importers, name, range').Ok?
    ensures ResolvedByImporters(lock, importers, name, range) == ResolvedByImporters(lock, importers, name, range')
  {
    var v, v' := ResolvedByImporters(lock, importers, name, range).value, ResolvedByImporters(lock, importers, name, range').value;
    ResolvedExactlyWhenUnanimous(lock, importers, name, range, v);
    ResolvedExactlyWhenUnanimous(lock, importers, name, range', v');
    var e :| ListedBySome(lock, importers, name, e);
  }

  /** What is at the top for `name` so far is what the importers resolve it to. */
  ghost predicate IsResolved(lock: Lockfile, importers: seq<string>, name: string, version: string) {
    exists range :: ResolvedByImporters(lock, importers, name, range).Ok?
      && WithoutPeers(ResolvedByImporters(lock, importers, name, range).value) == Some(version)
  }

  ghost predicate IsTidy(lock: Lockfile, importers: seq<string>, tree: Tree) {
    forall n :: [n] in tree ==> IsKept(lock, n, tree[[n]].version) && IsResolved(lock, importers, n, tree[[n]].version)
  }

  lemma TopIsAllTheRootSees(present: set<Location>, name: string)
    ensures Walk(present, [], name) == if [name] in present then Some([name]) else None
  {
    assert [] + [name] == [name];
  }

  lemma RootNeedsItsPackage(lock: Lockfile, m: Manifest, importers: seq<string>, r: Rooted, e: RootEdge)
    requires QueuedIsPlaced(r.layout) && IsTidy(lock, importers, r.layout.tree) && e.name !in m.bundleDependencies
    ensures Root(lock, m, importers, r, e).Ok? <==> IsThere(lock, importers, e.name, e.range)
  {
    var v := ResolvedByImporters(lock, importers, e.name, e.range);
    ThereIsResolvedAndKept(lock, importers, e.name, e.range);
    if v.Ok? {
      var version := WithoutPeers(v.value).value;
      TopIsAllTheRootSees(r.layout.tree.Keys, e.name);
      if [e.name] in r.layout.tree {
        var range :| ResolvedByImporters(lock, importers, e.name, range).Ok?
          && WithoutPeers(ResolvedByImporters(lock, importers, e.name, range).value) == Some(r.layout.tree[[e.name]].version);
        ResolvedOnce(lock, importers, e.name, e.range, range);
        assert r.layout.tree[[e.name]].version == version;
      }
    }
  }

  lemma RootStaysTidy(lock: Lockfile, m: Manifest, importers: seq<string>, r: Rooted, e: RootEdge)
    requires QueuedIsPlaced(r.layout) && IsTidy(lock, importers, r.layout.tree) && Root(lock, m, importers, r, e).Ok?
    ensures IsTidy(lock, importers, Root(lock, m, importers, r, e).value.layout.tree)
  {
    if e.name !in m.bundleDependencies {
      var version := WithoutPeers(ResolvedByImporters(lock, importers, e.name, e.range).value).value;
      RootNeedsItsPackage(lock, m, importers, r, e);
      ThereIsResolvedAndKept(lock, importers, e.name, e.range);
      assert IsResolved(lock, importers, e.name, version);
      var tree, tree' := r.layout.tree, Root(lock, m, importers, r, e).value.layout.tree;
      TopIsAllTheRootSees(tree.Keys, e.name);
      forall n | [n] in tree'
        ensures IsKept(lock, n, tree'[[n]].version) && IsResolved(lock, importers, n, tree'[[n]].version)
      {
        assert n != e.name ==> [n] in tree && tree'[[n]] == tree[[n]];
      }
    }
  }

  lemma {:induction false} RootAllNeedsEveryPackage(lock: Lockfile, m: Manifest, importers: seq<string>, r: Rooted, edges: seq<RootEdge>)
    requires QueuedIsPlaced(r.layout) && IsTidy(lock, importers, r.layout.tree)
    ensures RootAll(lock, m, importers, r, edges).Ok? <==>
            forall e :: e in edges && e.name !in m.bundleDependencies ==> IsThere(lock, importers, e.name, e.range)
    decreases |edges|
  {
    if edges != [] {
      var first := edges[0];
      assert forall e :: e in edges <==> e == first || e in edges[1..];
      if first.name !in m.bundleDependencies { RootNeedsItsPackage(lock, m, importers, r, first); }
      if Root(lock, m, importers, r, first).Ok? {
        RootStaysTidy(lock, m, importers, r, first);
        RootAllNeedsEveryPackage(lock, m, importers, Root(lock, m, importers, r, first).value, edges[1..]);
      }
    }
  }

  /** What the manifest asks for that the tarball does not carry. */
  ghost predicate IsFetched(m: Manifest, name: string, range: string) {
    name !in m.bundleDependencies &&
    ((name in m.dependencies && m.dependencies[name] == range) ||
     (name in m.optionalDependencies && m.optionalDependencies[name] == range))
  }

  lemma FetchedIsAnEdge(m: Manifest, name: string, range: string)
    ensures IsFetched(m, name, range) <==>
            name !in m.bundleDependencies && exists e :: e in RootEdges(m) && e.name == name && e.range == range
  {
    var names := Names.Sorted(m.dependencies.Keys + m.optionalDependencies.Keys);
    RootEdgesForAreTheSections(m, names, RootEdge(name, range, true));
    RootEdgesForAreTheSections(m, names, RootEdge(name, range, false));
    forall e | e in RootEdges(m) && e.name == name && e.range == range && name !in m.bundleDependencies ensures IsFetched(m, name, range) {
      RootEdgesForAreTheSections(m, names, e);
    }
  }

  /**
   * The root is placed exactly when every importer is in the lockfile and each
   * package it asks for, and does not carry itself, is listed by some importer,
   * by all of them at that range and at one registry version, which the
   * lockfile keeps.
   */
  lemma BeginSucceedsExactly(lock: Lockfile, m: Manifest, importers: seq<string>)
    ensures Begin(lock, m, importers).Ok? <==>
              && (forall d :: d in importers ==> d in lock.importers)
              && forall name, range :: IsFetched(m, name, range) ==> IsThere(lock, importers, name, range)
  {
    BeginNeedsEveryImporter(lock, m, importers);
    RootAllNeedsEveryPackage(lock, m, importers, Bare, RootEdges(m));
    forall name, range ensures IsFetched(m, name, range) <==>
      name !in m.bundleDependencies && exists e :: e in RootEdges(m) && e.name == name && e.range == range
    {
      FetchedIsAnEdge(m, name, range);
    }
    forall e | e in RootEdges(m) && e.name !in m.bundleDependencies ensures IsFetched(m, e.name, e.range) {
      FetchedIsAnEdge(m, e.name, e.range);
    }
  }
}
