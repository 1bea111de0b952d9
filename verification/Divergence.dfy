/**
 * Why the worklist's end needs circles at one version: four packages in a
 * circle, two names at two versions each, nest one level deeper on every turn.
 */
module Divergence {
  import opened Outcomes
  import opened Versions
  import opened Lockfiles
  import opened Layouts
  import opened LayoutInvariants
  import opened Derivations
  import opened Resolution
  import opened Termination
  import opened Runs
  import Names

  const One := Registry("1.0.0", "")
  const Two := Registry("2.0.0", "")

  function Plain(): PackageEntry {
    PackageEntry(Some("sha512"), false, map[], {})
  }

  function Needs(name: string, value: Value): Snapshot {
    Snapshot(map[name := value], map[])
  }

  /** a@1 needs b@1 needs a@2 needs b@2 needs a@1. */
  function Circle(): Lockfile {
    Lockfile(
      map["." := Importer(map["a" := ImporterEntry("1", One)], map[], map[])],
      map["a@1.0.0" := Plain(), "b@1.0.0" := Plain(), "a@2.0.0" := Plain(), "b@2.0.0" := Plain()],
      map["a@1.0.0" := Needs("b", One), "b@1.0.0" := Needs("a", Two),
          "a@2.0.0" := Needs("b", Two), "b@2.0.0" := Needs("a", One)])
  }

  /** The package placed on turn `n`. */
  function KeyOn(n: nat): Key {
    match n % 4
    case 0 => Key("a", One)
    case 1 => Key("b", One)
    case 2 => Key("a", Two)
    case _ => Key("b", Two)
  }

  /** Where it goes: the first at the top, each after it under the one before. */
  function PlaceOn(n: nat): Location {
    if n == 0 then ["a"] else seq(n, i requires 0 <= i < n => Other(i))
  }

  function Other(n: nat): string {
    if n % 2 == 0 then "b" else "a"
  }

  lemma SnapshotOn(n: nat)
    ensures var k, next := KeyOn(n), KeyOn(n + 1);
            var spelled := Spell(k.name, k.value.Text());
            && spelled in Circle().snapshots && Circle().snapshots[spelled] == Needs(next.name, next.value)
            && PackageOf(Circle(), Package(k.name, k.value.version)) == Ok(Plain())
            && WithoutPeers(k.value) == Some(k.value.version)
  {
    assert "a" + "@" + "1.0.0" == "a@1.0.0" && "b" + "@" + "1.0.0" == "b@1.0.0";
    assert "a" + "@" + "2.0.0" == "a@2.0.0" && "b" + "@" + "2.0.0" == "b@2.0.0";
    assert "1.0.0" + "" == "1.0.0" && "2.0.0" + "" == "2.0.0";
    assert "a@1.0.0"[0] != "b@1.0.0"[0] && "a@1.0.0"[2] != "a@2.0.0"[2] && "a@1.0.0"[0] != "b@2.0.0"[0];
    assert "b@1.0.0"[2] != "b@2.0.0"[2] && "b@1.0.0"[0] != "a@2.0.0"[0] && "a@2.0.0"[0] != "b@2.0.0"[0];
    assert "1.0.0"[0] != "2.0.0"[0];
    assert n % 4 == 3 ==> (n + 1) % 4 == 0;
    assert n % 4 != 3 ==> (n + 1) % 4 == n % 4 + 1;
  }

  lemma OnlyEdge(name: string, value: Value)
    ensures Edges(Needs(name, value)) == [Edge(name, value, false)]
  {
    OneName(name);
    assert Names.Sorted({}) == [];
    assert Needs(name, value).dependencies.Keys == {name};
    assert Needs(name, value).optionalDependencies.Keys == {};
    var required := SectionEdges([name], Needs(name, value).dependencies, false);
    assert required[0] == Edge(name, value, false);
    assert Edges(Needs(name, value)) == required + SectionEdges([], Needs(name, value).optionalDependencies, true);
  }

  lemma OneName(name: string)
    ensures Names.Sorted({name}) == [name]
  {
    assert {name} - {name} == {} && Names.Sorted({}) == [];
    assert name in Names.Sorted({name});
  }

  lemma PlacesDiffer(i: nat, j: nat)
    requires i < j
    ensures PlaceOn(i) != PlaceOn(j)
  {
    if i == 0 { assert PlaceOn(j)[0] == "b"; }
  }

  ghost predicate NodeOn(tree: Tree, i: nat) {
    && PlaceOn(i) in tree
    && tree[PlaceOn(i)].name == KeyOn(i).name && tree[PlaceOn(i)].version == KeyOn(i).value.version
  }

  /** The tree after `n` turns: one node for each turn so far. */
  ghost predicate Chain(tree: Tree, n: nat) {
    && (forall i :: 0 <= i <= n ==> NodeOn(tree, i))
    && (forall l :: l in tree ==> exists i :: 0 <= i <= n && l == PlaceOn(i))
    && PlaceOn(n) in tree && tree[PlaceOn(n)].resolved == None
  }

  /** Only the last of them is waiting. */
  ghost predicate OneToGo(s: Layout, n: nat) {
    Chain(s.tree, n) && s.queue == [Item(PlaceOn(n), KeyOn(n))]
  }

  lemma NameAfter(n: nat)
    ensures KeyOn(n + 1).name == Other(n)
  {
    var q, r := n / 4, n % 4;
    assert n == 4 * q + r;
    assert (n + 1) % 4 == if r == 3 then 0 else r + 1;
    assert n % 2 == r % 2;
  }

  lemma PlaceAfter(n: nat)
    ensures PlaceOn(n + 1) == (if n == 0 then [] else PlaceOn(n)) + [Other(n)]
  {
  }

  lemma Alternates(n: nat)
    ensures Other(n) != Other(n + 1)
  {
    assert "a"[0] != "b"[0];
    assert (n + 1) % 2 != n % 2;
  }

  lemma NothingNearer(n: nat, i: nat, j: nat)
    requires n > 0 && |PlaceOn(n - 1)| <= i <= n && j <= n
    ensures PlaceOn(n)[..i] + [Other(n)] != PlaceOn(j)
  {
    var l := PlaceOn(n)[..i] + [Other(n)];
    assert |l| == i + 1 && l[i] == Other(n);
    Alternates(n - 1);
    if j == 0 {
      assert |PlaceOn(j)| == 1;
    } else {
      assert |PlaceOn(j)| == j;
      assert j == n ==> PlaceOn(j)[n - 1] == Other(n - 1);
    }
  }

  lemma OneTurnBack(s: Layout, n: nat)
    requires Chain(s.tree, n) && n > 0
    ensures IsNearest(s.tree.Keys, PlaceOn(n), Other(n), PlaceOn(n - 1))
  {
    var at, found := PlaceOn(n), PlaceOn(n - 1);
    assert NodeOn(s.tree, n - 1);
    TurnBackPlace(n);
    forall i | |found| <= i <= |at| ensures at[..i] + [Other(n)] !in s.tree.Keys {
      forall j | 0 <= j <= n ensures at[..i] + [Other(n)] != PlaceOn(j) {
        NothingNearer(n, i, j);
      }
    }
  }

  lemma TurnBackPlace(n: nat)
    requires n > 0
    ensures var found := PlaceOn(n - 1);
            found != [] && |found| <= |PlaceOn(n)| + 1 && found == PlaceOn(n)[..|found| - 1] + [Other(n)]
  {
    assert n >= 2 ==> (n - 2) % 2 == n % 2;
  }

  lemma NothingAbove(s: Layout)
    requires Chain(s.tree, 0)
    ensures Walk(s.tree.Keys, PlaceOn(0), Other(0)) == None
  {
    assert "a"[0] != "b"[0];
    assert forall l :: l in s.tree ==> l == ["a"];
    assert (PlaceOn(0) + ["b"])[1] == "b" && ([] + ["b"])[0] == "b";
  }

  lemma NextPlaceIsFree(s: Layout, n: nat)
    requires Chain(s.tree, n)
    ensures PlaceOn(n + 1) !in s.tree
  {
    forall i | 0 <= i <= n ensures PlaceOn(i) != PlaceOn(n + 1) {
      PlacesDiffer(i, n + 1);
    }
  }

  lemma OtherVersion(n: nat)
    requires n > 0
    ensures KeyOn(n - 1).value.version != KeyOn(n + 1).value.version
  {
    assert "1.0.0"[0] != "2.0.0"[0];
    var turn := (n - 1) % 4;
    assert (n + 1) % 4 == if turn < 2 then turn + 2 else turn - 2 by {
      assert n + 1 == 4 * ((n - 1) / 4) + turn + 2;
    }
  }

  /** So the next package goes one level further down. */
  lemma PlacesDeeper(s: Layout, n: nat)
    requires Chain(s.tree, n)
    ensures var key := KeyOn(n + 1);
            Place(Circle(), s, PlaceOn(n), key, false) ==
            Ok(Landing(PlaceOn(n + 1), Add(s, PlaceOn(n + 1), Package(key.name, key.value.version), key)))
  {
    NameAfter(n);
    PlaceAfter(n);
    NextPlaceIsFree(s, n);
    SnapshotOn(n + 1);
    if n == 0 {
      NothingAbove(s);
      assert [] + [Other(0)] == [Other(0)];
    } else {
      assert NodeOn(s.tree, n - 1);
      OneTurnBack(s, n);
      WalkIsNearest(s.tree.Keys, PlaceOn(n), Other(n));
      OtherVersion(n);
    }
  }

  lemma EarlierPlacesStay(s: Tree, n: nat, added: Placed, after: Placed, t: Tree, i: nat)
    requires NodeOn(s, i) && i <= n
    requires after.name == KeyOn(n).name && after.version == KeyOn(n).value.version
    requires t == s[PlaceOn(n + 1) := added][PlaceOn(n) := after]
    ensures NodeOn(t, i)
  {
    PlacesDiffer(i, n + 1);
    if i < n { PlacesDiffer(i, n); }
  }

  lemma NewPlaceIsThere(s: Tree, n: nat, added: Placed, after: Placed, t: Tree)
    requires added.name == KeyOn(n + 1).name && added.version == KeyOn(n + 1).value.version
    requires t == s[PlaceOn(n + 1) := added][PlaceOn(n) := after]
    ensures NodeOn(t, n + 1) && t[PlaceOn(n + 1)] == added
    ensures forall l :: l in t ==> l in s || l == PlaceOn(n) || l == PlaceOn(n + 1)
  {
    PlacesDiffer(n, n + 1);
  }

  lemma NextIsChain(s: Tree, n: nat, after: Placed, t: Tree)
    requires Chain(s, n)
    requires after.name == KeyOn(n).name && after.version == KeyOn(n).value.version
    requires var key := KeyOn(n + 1);
             t == s[PlaceOn(n + 1) := Fresh(Package(key.name, key.value.version), key)][PlaceOn(n) := after]
    ensures Chain(t, n + 1)
  {
    var added := Fresh(Package(KeyOn(n + 1).name, KeyOn(n + 1).value.version), KeyOn(n + 1));
    NewPlaceIsThere(s, n, added, after, t);
    forall i | 0 <= i <= n ensures NodeOn(t, i) {
      EarlierPlacesStay(s, n, added, after, t, i);
    }
    forall l | l in t ensures exists i :: 0 <= i <= n + 1 && l == PlaceOn(i) {
      if l in s { var i :| 0 <= i <= n && l == PlaceOn(i); }
    }
  }

  lemma FollowOne(lock: Lockfile, known: PackageEntry, at: Location, p: Progress, e: Edge)
    requires at in p.layout.tree && QueuedIsPlaced(p.layout)
    ensures FollowAll(lock, known, at, p, [e]) == Follow(lock, known, at, p, e)
  {
    assert [e][1..] == [];
  }

  /** Following the one edge there is puts the next node in place and the turn's own edge on record. */
  lemma FollowGoesDeeper(tree: Tree, n: nat) returns (done: Progress)
    requires Chain(tree, n)
    ensures PlaceOn(n) in tree
    ensures var next := KeyOn(n + 1);
            Follow(Circle(), Plain(), PlaceOn(n), Progress(Layout(tree, []), Resolved(map[], map[])), Edge(next.name, next.value, false))
            == Ok(done)
    ensures done.layout.queue == [Item(PlaceOn(n + 1), KeyOn(n + 1))]
    ensures PlaceOn(n) in done.layout.tree && done.layout.tree[PlaceOn(n)].resolved == None
    ensures Chain(done.layout.tree[PlaceOn(n) := done.layout.tree[PlaceOn(n)].(resolved := Some(done.resolved))], n + 1)
  {
    var at, key := PlaceOn(n), KeyOn(n + 1);
    var e := Edge(key.name, key.value, false);
    var s := Layout(tree, []);
    assert NodeOn(tree, n);
    PlacesDeeper(s, n);
    NextPlaceIsFree(s, n);
    assert e.Target() == key;
    done := Follow(Circle(), Plain(), at, Progress(s, Resolved(map[], map[])), e).value;
    assert done.layout.queue == [] + [Item(PlaceOn(n + 1), key)];
    var added := tree[PlaceOn(n + 1) := Fresh(Package(key.name, key.value.version), key)];
    assert done.layout.tree == added[at := done.layout.tree[at]];
    var after := done.layout.tree[at].(resolved := Some(done.resolved));
    var settled := done.layout.tree[at := after];
    assert settled == added[at := after];
    NextIsChain(tree, n, after, settled);
  }

  /** One turn nests one level deeper, and leaves as much to do as before. */
  lemma VisitGoesDeeper(s: Layout, n: nat) returns (t: Layout)
    requires OneToGo(s, n)
    ensures QueuedIsPlaced(s) && Visit(Circle(), s) == Ok(t) && OneToGo(t, n + 1)
  {
    var at, next := PlaceOn(n), KeyOn(n + 1);
    var e := Edge(next.name, next.value, false);
    var start := Progress(Layout(s.tree, []), Resolved(map[], map[]));
    assert s.queue[1..] == [] && NodeOn(s.tree, n);
    SnapshotOn(n);
    OnlyEdge(next.name, next.value);
    var done := FollowGoesDeeper(s.tree, n);
    FollowOne(Circle(), Plain(), at, start, e);
    t := Settle(done, at).value;
  }

  const Wants := Manifest(map["a" := "1"], map[], {})

  lemma CircleBegins() returns (r: Rooted)
    ensures Begin(Circle(), Wants, ["."]) == Ok(r) && OneToGo(r.layout, 0)
  {
    OneName("a");
    var e := RootEdge("a", "1", false);
    assert Wants.dependencies.Keys + Wants.optionalDependencies.Keys == {"a"};
    assert RootEdgesFor(Wants, ["a"]) == [e];
    var listed := Listed(Circle(), ["."], "a");
    assert ["."][1..] == [] && Listed(Circle(), [], "a") == [];
    assert listed == [ImporterEntry("1", One)];
    ResolvedExactlyWhenUnanimous(Circle(), ["."], "a", "1", One);
    SnapshotOn(0);
    assert KeyOn(0) == Key("a", One);
    assert Walk({}, [], "a") == None;
    assert [e][1..] == [];
    r := Root(Circle(), Wants, ["."], Bare, e).value;
    assert r.layout.queue == [] + [Item(["a"], KeyOn(0))];
    assert r.layout.tree == map[["a"] := Fresh(Package("a", "1.0.0"), KeyOn(0))];
  }

  lemma OneTurnOn(s: Layout, n: nat, before: Layout) returns (t: Layout)
    requires QueuedIsPlaced(s) && After(Circle(), s, n) == Ok(before) && OneToGo(before, n)
    ensures After(Circle(), s, n + 1) == Ok(t) && OneToGo(t, n + 1)
  {
    t := VisitGoesDeeper(before, n);
    OneMore(Circle(), s, n, before);
  }

  ghost function GoesOn(s: Layout): nat -> bool
    requires QueuedIsPlaced(s)
  {
    (n: nat) => After(Circle(), s, n).Ok? && OneToGo(After(Circle(), s, n).value, n)
  }

  lemma GoingOnIsKept(s: Layout)
    requires QueuedIsPlaced(s)
    ensures forall n: nat :: GoesOn(s)(n) ==> GoesOn(s)(n + 1)
  {
    forall n: nat | GoesOn(s)(n) ensures GoesOn(s)(n + 1) {
      var t := OneTurnOn(s, n, After(Circle(), s, n).value);
    }
  }

  /** However many turns it is given, this worklist has one more to take, one level deeper. */
  lemma CircleNeverEnds(turns: nat)
    ensures Begin(Circle(), Wants, ["."]).Ok?
    ensures !Halted(After(Circle(), Begin(Circle(), Wants, ["."]).value.layout, turns))
  {
    var r := CircleBegins();
    GoingOnIsKept(r.layout);
    assert After(Circle(), r.layout, 0) == Ok(r.layout);
    HoldsOfAll(GoesOn(r.layout), turns);
    assert GoesOn(r.layout)(turns);
  }

  /** It is a circle at two versions that keeps it going. */
  lemma CircleIsAtTwoVersions()
    ensures !CirclesAtOneVersion(Circle(), ReachedKeys(Circle(), Wants, ["."])) && !Acyclic(Circle())
  {
    var keys := ReachedKeys(Circle(), Wants, ["."]);
    if Acyclic(Circle()) { AcyclicHasNoCircles(Circle(), keys); }
    if CirclesAtOneVersion(Circle(), keys) {
      var r := CircleBegins();
      RunsEndWithCirclesAtOneVersion(Circle(), Wants, ["."], r, |Cells(keys)|);
      CircleNeverEnds(|Cells(keys)|);
    }
  }
}
