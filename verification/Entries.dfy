/**
 * What is written: which entries are optional, and that every entry satisfies
 * the edges that reach it.
 */
module Entries {
  import opened Layouts
  import opened Runs
  import Names

  // -------------------------------------------------- what a required edge reaches

  function Landings(names: seq<string>, landed: map<string, Location>): (all: seq<Location>)
    requires forall n :: n in names ==> n in landed
    ensures forall l :: l in all <==> exists n :: n in names && landed[n] == l
  {
    if names == [] then [] else [landed[names[0]]] + Landings(names[1..], landed)
  }

  function Targets(landed: map<string, Location>): (all: seq<Location>)
    ensures forall l :: l in all <==> l in landed.Values
  {
    Landings(Names.Sorted(landed.Keys), landed)
  }

  /** The step `l` takes to `next`: a required edge or a peer it recorded. */
  ghost predicate Requires(tree: Tree, l: Location, next: Location) {
    l in tree && (next in tree[l].required.Values || next in tree[l].peers.Values)
  }

  ghost function Steps(tree: Tree): (Location, Location) -> bool {
    (l, next) => Requires(tree, l, next)
  }

  ghost predicate RequiredPath(tree: Tree, roots: set<Location>, path: seq<Location>) {
    IsRun(Steps(tree), path) && path[0] in roots
  }

  /** A chain of required edges and peers leads from the root to `l`. */
  ghost predicate IsRequired(tree: Tree, roots: set<Location>, l: Location) {
    exists path :: RequiredPath(tree, roots, path) && path[|path| - 1] == l
  }

  lemma RootIsRequired(tree: Tree, roots: set<Location>, l: Location)
    requires l in roots
    ensures IsRequired(tree, roots, l)
  {
    assert RequiredPath(tree, roots, [l]) && [l][|[l]| - 1] == l;
  }

  lemma NextIsRequired(tree: Tree, roots: set<Location>, l: Location, next: Location)
    requires IsRequired(tree, roots, l) && Requires(tree, l, next)
    ensures IsRequired(tree, roots, next)
  {
    var path :| RequiredPath(tree, roots, path) && path[|path| - 1] == l;
    LongerRun(Steps(tree), path, next);
    var longer := path + [next];
    assert RequiredPath(tree, roots, longer) && longer[|longer| - 1] == next;
  }

  /** `closed` holds the roots and everything one step from what it holds. */
  ghost predicate Closed(tree: Tree, roots: set<Location>, closed: set<Location>) {
    && roots <= closed
    && forall l, next :: l in closed && Requires(tree, l, next) ==> next in closed
  }

  /** What is required is the least set that is closed under the root and its steps. */
  lemma RequiredIsLeast(tree: Tree, roots: set<Location>, closed: set<Location>, l: Location)
    requires Closed(tree, roots, closed) && IsRequired(tree, roots, l)
    ensures l in closed
  {
    var path :| RequiredPath(tree, roots, path) && path[|path| - 1] == l;
    HoldsAllAlong(Steps(tree), path, (i: nat, x: Location) => x in closed, |path| - 1);
  }

  function Members(locations: seq<Location>): set<Location> {
    set l | l in locations
  }

  /** Every location the stack could ever hold. */
  ghost function Mentioned(tree: Tree, roots: seq<Location>): set<Location> {
    Members(roots) +
    (set l, next | l in tree && next in tree[l].required.Values :: next) +
    (set l, next | l in tree && next in tree[l].peers.Values :: next)
  }

  /** Half-way: `seen` has been stepped from, `waiting` is still to be. */
  ghost predicate Exploring(tree: Tree, roots: set<Location>, seen: set<Location>, waiting: set<Location>) {
    && (forall l :: l in seen + waiting ==> IsRequired(tree, roots, l))
    && roots <= seen + waiting
    && forall l, next :: l in seen && Requires(tree, l, next) ==> next in seen + waiting
  }

  lemma ExploreOne(tree: Tree, roots: set<Location>, seen: set<Location>, rest: set<Location>, l: Location, more: set<Location>)
    requires Exploring(tree, roots, seen, rest + {l})
    requires forall next :: next in more <==> Requires(tree, l, next)
    ensures Exploring(tree, roots, seen + {l}, rest + more)
  {
    forall next | next in more ensures IsRequired(tree, roots, next) {
      NextIsRequired(tree, roots, l, next);
    }
  }

  lemma SkipOne(tree: Tree, roots: set<Location>, seen: set<Location>, rest: set<Location>, l: Location)
    requires Exploring(tree, roots, seen, rest + {l}) && l in seen
    ensures Exploring(tree, roots, seen, rest)
  {
    assert seen + rest == seen + (rest + {l});
  }

  lemma PushedIsMentioned(tree: Tree, roots: seq<Location>, l: Location)
    ensures Members(Pushed(tree, l)) <= Mentioned(tree, roots)
  {
  }

  lemma ExploredAll(tree: Tree, roots: set<Location>, seen: set<Location>)
    requires Exploring(tree, roots, seen, {})
    ensures forall l :: l in seen <==> IsRequired(tree, roots, l)
  {
    assert seen + {} == seen;
    assert Closed(tree, roots, seen);
    forall l | IsRequired(tree, roots, l) ensures l in seen {
      RequiredIsLeast(tree, roots, seen, l);
    }
  }

  lemma MembersSplit(a: seq<Location>, b: seq<Location>)
    ensures Members(a + b) == Members(a) + Members(b)
  {
  }

  lemma Popped(pending: seq<Location>)
    requires pending != []
    ensures Members(pending) == Members(pending[..|pending| - 1]) + {pending[|pending| - 1]}
  {
    assert pending == pending[..|pending| - 1] + [pending[|pending| - 1]];
    MembersSplit(pending[..|pending| - 1], [pending[|pending| - 1]]);
  }

  /** What stepping from `l` pushes. */
  function Pushed(tree: Tree, l: Location): (more: seq<Location>)
    ensures forall next :: next in more <==> Requires(tree, l, next)
  {
    if l in tree then Targets(tree[l].required) + Targets(tree[l].peers) else []
  }

  /** The stack loop behind `optional`: exactly what a required chain reaches, on any tree, cycles and all. */
  method RequiredLocations(tree: Tree, roots: seq<Location>) returns (required: set<Location>)
    ensures forall l :: l in required <==> IsRequired(tree, Members(roots), l)
  {
    required := {};
    var pending := roots;
    forall l | l in Members(roots) ensures IsRequired(tree, Members(roots), l) {
      RootIsRequired(tree, Members(roots), l);
    }
    while pending != []
      invariant Exploring(tree, Members(roots), required, Members(pending))
      invariant Members(pending) <= Mentioned(tree, roots)
      decreases Mentioned(tree, roots) - required, |pending|
    {
      var location, rest := pending[|pending| - 1], pending[..|pending| - 1];
      Popped(pending);
      pending := rest;
      if location in required {
        SkipOne(tree, Members(roots), required, Members(rest), location);
        continue;
      }
      ExploreOne(tree, Members(roots), required, Members(rest), location, Members(Pushed(tree, location)));
      MembersSplit(rest, Pushed(tree, location));
      PushedIsMentioned(tree, roots, location);
      required := required + {location};
      pending := rest + Pushed(tree, location);
    }
    ExploredAll(tree, Members(roots), required);
  }
}
