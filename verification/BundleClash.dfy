/**
 * A derivation that passes its own check and still writes an entry that does
 * not satisfy the edge reaching it: the manifest bundles `y`, and `x` needs
 * another version of `y` out of the lockfile.
 */
module BundleClash {
  import opened Outcomes
  import opened Versions
  import opened Lockfiles
  import opened Layouts
  import opened Derivations
  import opened Shrinkwraps
  import Names

  const One := Registry("1.0.0", "")

  function Plain(): PackageEntry {
    PackageEntry(Some("sha512"), false, map[], {})
  }

  function Lock(): Lockfile {
    Lockfile(
      map["." := Importer(map["x" := ImporterEntry("1", One)], map[], map[])],
      map["x@1.0.0" := Plain(), "y@1.0.0" := Plain()],
      map["x@1.0.0" := Snapshot(map["y" := One], map[]), "y@1.0.0" := Snapshot(map[], map[])])
  }

  const Wants := Manifest(map["x" := "1", "y" := "9.9.9"], map[], {"y"})

  const XAt: Location := ["x"]
  const YAt: Location := ["y"]
  const XKey := Key("x", One)
  const YKey := Key("y", One)

  lemma Spelled()
    ensures Spell("x", One.Text()) == "x@1.0.0" && Spell("y", One.Text()) == "y@1.0.0"
    ensures Spell("x", "1.0.0") == "x@1.0.0" && Spell("y", "1.0.0") == "y@1.0.0"
    ensures "x@1.0.0" != "y@1.0.0" && "x" != "y" && "9.9.9" != "1.0.0"
  {
    assert "1.0.0" + "" == "1.0.0";
    assert "x"[0] != "y"[0] && "9.9.9"[0] != "1.0.0"[0] && "x@1.0.0"[0] != "y@1.0.0"[0];
  }

  lemma SortedNames()
    ensures Names.Sorted({"y"}) == ["y"] && Names.Sorted({"x", "y"}) == ["x", "y"]
  {
    Spelled();
    assert {"y"} - {"y"} == {} && Names.Sorted({}) == [];
    assert "y" in Names.Sorted({"y"});
    assert {"x", "y"} - {"x"} == {"y"};
    assert Names.Less("x", "y") && !Names.Less("y", "x");
    assert Names.IsLeast("x", {"x", "y"});
    Names.LeastIsUnique({"x", "y"});
  }

  /** The layout before the first turn, between the two, and after the second. */
  const XNode := Fresh(Package("x", "1.0.0"), XKey)
  const YNode := Fresh(Package("y", "1.0.0"), YKey)
  const XSettled := XNode.(required := map["y" := YAt], resolved := Some(Resolved(map["y" := "1.0.0"], map[])))
  const YSettled := YNode.(resolved := Some(Resolved(map[], map[])))

  const Start := Layout(map[XAt := XNode], [Item(XAt, XKey)])
  const Middle := Layout(map[XAt := XSettled, YAt := YNode], [Item(YAt, YKey)])
  const Finish := Layout(map[XAt := XSettled, YAt := YSettled], [])

  const Roots := Rooted(Start, map["x" := XAt], map[], map[YAt := "9.9.9"])

  const XEdge := RootEdge("x", "1", false)
  const YEdge := RootEdge("y", "9.9.9", false)

  lemma TwoRootEdges()
    ensures RootEdges(Wants) == [XEdge, YEdge]
  {
    SortedNames();
    Spelled();
    assert Wants.dependencies.Keys + Wants.optionalDependencies.Keys == {"x", "y"};
    assert ["x", "y"][1..] == ["y"] && ["y"][1..] == [];
    assert RootEdgesOf(Wants, "x") == [XEdge] && RootEdgesOf(Wants, "y") == [YEdge];
    assert RootEdgesFor(Wants, ["y"]) == [YEdge];
  }

  lemma XResolves()
    ensures ResolvedByImporters(Lock(), ["."], "x", "1") == Ok(One)
  {
    assert ["."][1..] == [] && Listed(Lock(), [], "x") == [];
    assert Listed(Lock(), ["."], "x") == [ImporterEntry("1", One)];
    ResolvedExactlyWhenUnanimous(Lock(), ["."], "x", "1", One);
  }

  const JustX := Rooted(Start, map["x" := XAt], map[], map[])

  lemma XIsPlaced()
    ensures Root(Lock(), Wants, ["."], Bare, XEdge) == Ok(JustX)
  {
    XResolves();
    Spelled();
    assert [] + ["x"] == XAt && [] + [Item(XAt, XKey)] == Start.queue;
    assert Place(Lock(), Bare.layout, [], XKey, false) == Ok(Landing(XAt, Start));
  }

  lemma Begins()
    ensures Begin(Lock(), Wants, ["."]) == Ok(Roots)
  {
    TwoRootEdges();
    XIsPlaced();
    assert Root(Lock(), Wants, ["."], JustX, YEdge) == Ok(Roots);
    assert [XEdge, YEdge][1..] == [YEdge] && [YEdge][1..] == [];
    assert RootAll(Lock(), Wants, ["."], JustX, [YEdge]) == Ok(Roots);
  }

  const Need := Edge("y", One, false)

  lemma OneEdge()
    ensures Edges(Snapshot(map["y" := One], map[])) == [Need]
  {
    SortedNames();
    var snapshot := Snapshot(map["y" := One], map[]);
    assert snapshot.dependencies.Keys == {"y"} && snapshot.optionalDependencies.Keys == {} && Names.Sorted({}) == [];
    assert SectionEdges(["y"], snapshot.dependencies, false) == [Need];
    assert Edges(snapshot) == [Need] + SectionEdges([], snapshot.optionalDependencies, true);
  }

  const Alone := Layout(map[XAt := XNode], [])
  const Both := Layout(map[XAt := XNode, YAt := YNode], [Item(YAt, YKey)])

  lemma PlacesY()
    ensures Place(Lock(), Alone, XAt, YKey, false) == Ok(Landing(YAt, Both))
  {
    Spelled();
    assert XAt + ["y"] == ["x", "y"] && [] + ["y"] == YAt && Owner(XAt) == [];
    assert ["x", "y"] !in Alone.tree && YAt !in Alone.tree;
    assert Walk(Alone.tree.Keys, [], "y") == None;
    assert Walk(Alone.tree.Keys, XAt, "y") == None;
    assert [] + [Item(YAt, YKey)] == Both.queue;
  }

  lemma FirstTurn()
    ensures Visit(Lock(), Start) == Ok(Middle)
  {
    OneEdge();
    PlacesY();
    Spelled();
    assert Start.queue[1..] == [];
    var start := Progress(Alone, Resolved(map[], map[]));
    var done := Progress(RecordEdge(Both, XAt, Need, YAt), Resolved(map["y" := "1.0.0"], map[]));
    assert Follow(Lock(), Plain(), XAt, start, Need) == Ok(done);
    assert [Need][1..] == [];
    assert FollowAll(Lock(), Plain(), XAt, start, [Need]) == Ok(done);
    assert Settle(done, XAt).value.tree == Middle.tree;
  }

  lemma SecondTurn()
    ensures Visit(Lock(), Middle) == Ok(Finish)
  {
    Spelled();
    var snapshot := Snapshot(map[], map[]);
    assert snapshot.dependencies.Keys == {} && Names.Sorted({}) == [];
    assert Edges(snapshot) == [];
    assert Middle.queue[1..] == [];
    var start := Progress(Layout(Middle.tree, []), Resolved(map[], map[]));
    assert FollowAll(Lock(), Plain(), YAt, start, []) == Ok(start);
    assert Settle(start, YAt).value.tree == Finish.tree;
  }

  const Written: map<Location, Entry> := map[
    XAt := Fetched("1.0.0", "sha512", map["y" := "1.0.0"], map[], map[], {}, false, false),
    YAt := InBundle("9.9.9")]

  lemma FindsTheBundledCopy()
    ensures Finish.tree.Keys + Roots.inBundle.Keys == Written.Keys
    ensures Walk(Written.Keys, XAt, "y") == Some(YAt) && IsNearest(Written.Keys, XAt, "y", YAt)
  {
    Spelled();
    assert Written.Keys == {XAt, YAt};
    assert XAt + ["y"] == ["x", "y"] && [] + ["y"] == YAt && Owner(XAt) == [];
    assert ["x", "y"] !in Written.Keys;
    assert Walk(Written.Keys, [], "y") == Some(YAt);
    WalkIsNearest(Written.Keys, XAt, "y");
  }

  lemma RunsTwoTurns()
    ensures QueuedIsPlaced(Start) && After(Lock(), Start, 2) == Ok(Finish)
  {
    FirstTurn();
    SecondTurn();
    assert After(Lock(), Start, 0) == Ok(Start);
    assert After(Lock(), Start, 1) == Ok(Middle);
  }

  lemma HoldsInTheEnd()
    ensures LayoutHolds(Finish.tree, Roots.inBundle)
  {
    FindsTheBundledCopy();
    assert forall l :: l in Finish.tree ==> l == XAt || l == YAt;
    assert forall n :: n in XSettled.required ==> n == "y";
  }

  lemma ClashDerives()
    ensures Derives(Lock(), Wants, ["."], 2, Roots, Finish)
  {
    Begins();
    RunsTwoTurns();
    HoldsInTheEnd();
  }

  lemma ClashEntries()
    ensures Writes(Lock(), Roots, Finish, {}, {XAt}, Written)
  {
    FindsTheBundledCopy();
    Spelled();
  }

  /** The derivation succeeds, and `x` pins `y` to a version nothing finds. */
  lemma ClashIsWritten()
    ensures Derives(Lock(), Wants, ["."], 2, Roots, Finish)
    ensures Writes(Lock(), Roots, Finish, {}, {XAt}, Written)
    ensures Pins(Written, XAt, "y", "1.0.0") && !Satisfied(Written, XAt, "y", "1.0.0")
  {
    ClashDerives();
    ClashEntries();
    FindsTheBundledCopy();
    Spelled();
    OnlyOneNearest(Written.Keys, XAt, "y", YAt);
  }
}
