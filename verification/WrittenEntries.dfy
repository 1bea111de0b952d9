/**
 * What an entry says, field by field, in terms of the lockfile and of the
 * packages that may build.
 */
module WrittenEntries {
  import opened Outcomes
  import opened Lockfiles
  import opened Layouts
  import opened LayoutInvariants
  import opened Derivations
  import opened Resolution
  import opened Sources
  import opened BundledPins

  /** The entry at `l` for a package that is not the tarball's own copy is all the lockfile has on it. */
  ghost predicate SaysWhatTheLockfileDoes(lock: Lockfile, builds: set<string>, tree: Tree, l: Location, entry: Entry)
    requires l in tree && l != []
  {
    var spelled := Last(l) + "@" + tree[l].version;
    && entry.Fetched? && entry.version == tree[l].version
    && spelled in lock.packages && !lock.packages[spelled].bundles
    && lock.packages[spelled].integrity == Some(entry.integrity)
    && entry.peers == lock.packages[spelled].peers && entry.optionalPeers == lock.packages[spelled].optionalPeers
    && (entry.hasInstallScript <==> Last(l) in builds)
  }

  lemma EntryIsFromTheLockfile(lock: Lockfile, m: Manifest, importers: seq<string>, turns: nat, r: Rooted, s: Layout,
                               builds: set<string>, required: set<Location>, entries: map<Location, Entry>, l: Location)
    requires Derives(lock, m, importers, turns, r, s) && Writes(lock, r, s, builds, required, entries)
    requires l in s.tree && l !in r.inBundle
    ensures l != [] && l in entries && SaysWhatTheLockfileDoes(lock, builds, s.tree, l, entries[l])
    ensures entries[l].optional <==> l !in required
  {
    DerivedIsComplete(lock, m, importers, turns, r, s);
    assert NodeOk(lock, s.tree, l);
    assert EntryFor(lock, s.tree[l], builds, l in required) == Ok(entries[l]);
  }

  /** `section` holds exactly what the edges of `k` of this kind ask for, peers left out. */
  ghost predicate IsSection(lock: Lockfile, k: Key, section: map<string, string>, optional: bool) {
    && (forall e: Edge :: IsOwnEdge(lock, k, e) && e.optional == optional ==>
          e.name in section && WithoutPeers(e.value) == Some(section[e.name]))
    && forall n :: n in section ==> Sources.Names(lock, k, n, section[n], optional)
  }

  /** Every context of a node asks for the same: one of them is where its versions came from. */
  lemma ResolvedIsItsSnapshot(lock: Lockfile, m: Manifest, importers: seq<string>, turns: nat, r: Rooted, s: Layout, l: Location)
    returns (k: Key)
    requires Derives(lock, m, importers, turns, r, s) && l in s.tree
    ensures k in s.tree[l].contexts && s.tree[l].resolved.Some?
    ensures IsSection(lock, k, s.tree[l].resolved.value.dependencies, false)
    ensures IsSection(lock, k, s.tree[l].resolved.value.optionalDependencies, true)
  {
    DerivedIsSourced(lock, m, importers, turns, r, s);
    var some := PlacedIsReached(lock, m, importers, turns, r, s, l);
    VisitedIsResolved(lock, m, importers, turns, r, s, l, some);
    assert IsSourced(lock, s.tree[l]);
    k :| k in s.tree[l].contexts && IsOf(lock, k, s.tree[l].resolved.value);
  }

  lemma VisitedIsResolved(lock: Lockfile, m: Manifest, importers: seq<string>, turns: nat, r: Rooted, s: Layout, l: Location, k: Key)
    requires Derives(lock, m, importers, turns, r, s) && l in s.tree && k in s.tree[l].contexts
    ensures s.tree[l].resolved.Some?
  {
    DerivedIsComplete(lock, m, importers, turns, r, s);
    ContextsOf(s.tree, l, k);
    assert Item(l, k) in Visited(s) && Followed(lock, s.tree, Item(l, k));
  }

  /** An entry's two sections are exactly those of a snapshot the package was reached through, at registry versions, peers left out. */
  lemma EntryIsItsSnapshot(lock: Lockfile, m: Manifest, importers: seq<string>, turns: nat, r: Rooted, s: Layout,
                           builds: set<string>, required: set<Location>, entries: map<Location, Entry>, l: Location)
    returns (k: Key)
    requires Derives(lock, m, importers, turns, r, s) && Writes(lock, r, s, builds, required, entries)
    requires l in s.tree && l !in r.inBundle
    ensures k in s.tree[l].contexts && l in entries && entries[l].Fetched?
    ensures IsSection(lock, k, entries[l].dependencies, false) && IsSection(lock, k, entries[l].optionalDependencies, true)
  {
    k := ResolvedIsItsSnapshot(lock, m, importers, turns, r, s, l);
    assert EntryFor(lock, s.tree[l], builds, l in required) == Ok(entries[l]);
  }
}
