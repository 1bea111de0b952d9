/**
 * One manifest for a package that bundles others: `publishedManifest` merging
 * every range its parts declare, and when the order of the parts matters.
 */
module PublishedManifests {
  import opened Outcomes
  import Names

  datatype Manifest = Manifest(name: string, version: string, dependencies: map<string, string>)

  /** The names released on their own, and the names a target makes optional. */
  datatype Target = Target(published: set<string>, optional: set<string>)

  /** What a range is read against: the target, and the version of each package it bundles. */
  datatype Context = Context(published: set<string>, versions: map<string, string>, optional: set<string>)

  datatype Merged = Merged(dependencies: map<string, string>, optional: map<string, string>, bundle: set<string>)

  datatype Refusal = NotBundled(name: string, declarer: string) | Disagree(name: string, declarer: string) | NoNodeEngine

  datatype Declaration = Declaration(declarer: string, name: string, range: string)

  predicate IsWorkspace(range: string) {
    "workspace:" <= range
  }

  /** The versions of the bundled packages, a later one of the same name winning. */
  function Versions(bundled: seq<Manifest>): map<string, string> {
    if bundled == [] then map[]
    else
      var last := bundled[|bundled| - 1];
      Versions(bundled[..|bundled| - 1])[last.name := last.version]
  }

  function DeclarationsOf(m: Manifest): seq<Declaration> {
    var names := Names.Sorted(m.dependencies.Keys);
    assert forall i :: 0 <= i < |names| ==> names[i] in names;
    seq(|names|, i requires 0 <= i < |names| && names[i] in m.dependencies => Declaration(m.name, names[i], m.dependencies[names[i]]))
  }

  function Declarations(manifests: seq<Manifest>): seq<Declaration> {
    if manifests == [] then []
    else Declarations(manifests[..|manifests| - 1]) + DeclarationsOf(manifests[|manifests| - 1])
  }

  /** One range into the fields so far. */
  function Taken(c: Context, f: Merged, d: Declaration): Result<Merged, Refusal> {
    if IsWorkspace(d.range) then
      if d.name in c.published then Ok(f)
      else if d.name !in c.versions then Refused(NotBundled(d.name, d.declarer))
      else Ok(f.(dependencies := f.dependencies[d.name := c.versions[d.name]], bundle := f.bundle + {d.name}))
    else
      var into := if d.name in c.optional then f.optional else f.dependencies;
      if d.name !in into then
        Ok(if d.name in c.optional then f.(optional := f.optional[d.name := d.range])
           else f.(dependencies := f.dependencies[d.name := d.range]))
      else if into[d.name] != d.range && d.name !in f.bundle then Refused(Disagree(d.name, d.declarer))
      else Ok(f)
  }

  function MergedAll(c: Context, declarations: seq<Declaration>): Result<Merged, Refusal> {
    if declarations == [] then Ok(Merged(map[], map[], {}))
    else
      var before :- MergedAll(c, declarations[..|declarations| - 1]);
      Taken(c, before, declarations[|declarations| - 1])
  }

  function ContextFor(t: Target, bundled: seq<Manifest>): Context {
    Context(t.published, Versions(bundled), t.optional)
  }

  /** The three dependency fields, once the root manifest is known to name a node engine. */
  function Published(t: Target, manifests: seq<Manifest>, bundled: seq<Manifest>, hasNodeEngine: bool): Result<Merged, Refusal> {
    var merged :- MergedAll(ContextFor(t, bundled), Declarations(manifests + bundled));
    if hasNodeEngine then Ok(merged) else Refused(NoNodeEngine)
  }

  // -------------------------------------------------------------------- the loops

  lemma {:induction false} RefusedStays(c: Context, declarations: seq<Declaration>, n: nat)
    requires n <= |declarations| && MergedAll(c, declarations[..n]).Refused?
    ensures MergedAll(c, declarations) == MergedAll(c, declarations[..n])
    decreases |declarations|
  {
    if n == |declarations| {
      assert declarations[..n] == declarations;
    } else {
      var p := |declarations| - 1;
      assert declarations[..p][..n] == declarations[..n];
      RefusedStays(c, declarations[..p], n);
    }
  }

  lemma {:induction false} DeclarationsInTwo(manifests: seq<Manifest>, i: nat)
    requires i <= |manifests|
    ensures |Declarations(manifests[..i])| <= |Declarations(manifests)|
    ensures Declarations(manifests)[..|Declarations(manifests[..i])|] == Declarations(manifests[..i])
  {
    if i == |manifests| {
      assert manifests[..i] == manifests;
    } else {
      var p := |manifests| - 1;
      assert manifests[..p][..i] == manifests[..i];
      DeclarationsInTwo(manifests[..p], i);
    }
  }

  method PublishedManifest(t: Target, manifests: seq<Manifest>, bundled: seq<Manifest>, hasNodeEngine: bool)
    returns (r: Result<Merged, Refusal>)
    ensures r == Published(t, manifests, bundled, hasNodeEngine)
  {
    var versions: map<string, string> := map[];
    for i := 0 to |bundled|
      invariant versions == Versions(bundled[..i])
    {
      assert bundled[..i + 1][..i] == bundled[..i];
      versions := versions[bundled[i].name := bundled[i].version];
    }
    assert bundled[..|bundled|] == bundled;
    var merged := MergeRanges(Context(t.published, versions, t.optional), manifests + bundled);
    if merged.Refused? { return merged; }
    r := if hasNodeEngine then merged else Refused(NoNodeEngine);
  }

  /** The target's own manifests and then the bundled ones, each one's names in order. */
  method MergeRanges(c: Context, all: seq<Manifest>) returns (r: Result<Merged, Refusal>)
    ensures r == MergedAll(c, Declarations(all))
  {
    var merged := Merged(map[], map[], {});
    for i := 0 to |all|
      invariant MergedAll(c, Declarations(all[..i])) == Ok(merged)
    {
      ghost var before := Declarations(all[..i]);
      OneMoreManifest(all, i);
      var declared := DeclarationsOf(all[i]);
      assert before + declared[..0] == before;
      for j := 0 to |declared|
        invariant MergedAll(c, before + declared[..j]) == Ok(merged)
      {
        var d := declared[j];
        OneMore(c, before, declared, j);
        var taken := Taken(c, merged, d);
        if taken.Refused? {
          RefusedEarly(c, all, i, j);
          return taken;
        }
        merged := taken.value;
      }
      assert declared[..|declared|] == declared;
    }
    assert all[..|all|] == all;
    r := Ok(merged);
  }

  lemma OneMore(c: Context, before: seq<Declaration>, declared: seq<Declaration>, j: nat)
    requires j < |declared| && MergedAll(c, before + declared[..j]).Ok?
    ensures MergedAll(c, before + declared[..j + 1]) == Taken(c, MergedAll(c, before + declared[..j]).value, declared[j])
    ensures before + declared[..j + 1] <= before + declared
  {
    var all := before + declared[..j + 1];
    assert all[..|all| - 1] == before + declared[..j] && all[|all| - 1] == declared[j];
  }

  lemma OneMoreManifest(manifests: seq<Manifest>, i: nat)
    requires i < |manifests|
    ensures Declarations(manifests[..i + 1]) == Declarations(manifests[..i]) + DeclarationsOf(manifests[i])
  {
    assert manifests[..i + 1][..i] == manifests[..i];
  }

  /** A refusal part of the way is the answer. */
  lemma RefusedEarly(c: Context, manifests: seq<Manifest>, i: nat, j: nat)
    requires i < |manifests| && j < |DeclarationsOf(manifests[i])|
    requires MergedAll(c, Declarations(manifests[..i]) + DeclarationsOf(manifests[i])[..j + 1]).Refused?
    ensures MergedAll(c, Declarations(manifests)) ==
            MergedAll(c, Declarations(manifests[..i]) + DeclarationsOf(manifests[i])[..j + 1])
  {
    var all, declared := Declarations(manifests), DeclarationsOf(manifests[i]);
    var some := Declarations(manifests[..i]) + declared;
    var few := Declarations(manifests[..i]) + declared[..j + 1];
    OneMoreManifest(manifests, i);
    DeclarationsInTwo(manifests, i + 1);
    assert all[..|some|] == some && some[..|few|] == few;
    assert all[..|few|] == all[..|some|][..|few|] == few;
    RefusedStays(c, all, |few|);
  }

  // -------------------------------------------------------------- name by name

  ghost function Ranges(declarations: seq<Declaration>, name: string): set<string> {
    set d | d in declarations && d.name == name && !IsWorkspace(d.range) :: d.range
  }

  /** The first range declared for `name`. */
  function FirstRange(declarations: seq<Declaration>, name: string): Option<string> {
    if declarations == [] then None
    else
      var last := declarations[|declarations| - 1];
      var before := FirstRange(declarations[..|declarations| - 1], name);
      if before.Some? then before
      else if last.name == name && !IsWorkspace(last.range) then Some(last.range)
      else None
  }

  /** Something declares `name` as a workspace package, and it is not released on its own. */
  ghost predicate Bundles(c: Context, declarations: seq<Declaration>, name: string) {
    name !in c.published && exists d :: d in declarations && d.name == name && IsWorkspace(d.range)
  }

  /** Where the fields so far put one name, and why. */
  ghost predicate Describes(c: Context, declarations: seq<Declaration>, f: Merged, name: string) {
    var ranges, bundled := Ranges(declarations, name), Bundles(c, declarations, name);
    && (name in f.bundle <==> bundled)
    && (bundled ==> name in c.versions && name in f.dependencies && f.dependencies[name] == c.versions[name])
    && (!bundled ==> (name in f.dependencies <==> name !in c.optional && ranges != {}))
    && (!bundled && name in f.dependencies ==> ranges == {f.dependencies[name]})
    && (name in f.optional <==> name in c.optional && ranges != {})
    && (name in f.optional ==> f.optional[name] in ranges && FirstRange(declarations, name) == Some(f.optional[name]))
    && (ranges == {} ==> FirstRange(declarations, name) == None)
    && (name in f.optional && !bundled ==> ranges == {f.optional[name]})
  }

  ghost predicate DescribesAll(c: Context, declarations: seq<Declaration>, f: Merged) {
    forall name :: Describes(c, declarations, f, name)
  }

  lemma OneMoreDeclared(c: Context, declarations: seq<Declaration>, d: Declaration, name: string)
    ensures Ranges(declarations + [d], name) ==
            Ranges(declarations, name) + (if d.name == name && !IsWorkspace(d.range) then {d.range} else {})
    ensures Bundles(c, declarations + [d], name) <==>
            Bundles(c, declarations, name) || (d.name == name && IsWorkspace(d.range) && name !in c.published)
    ensures FirstRange(declarations + [d], name) ==
            if FirstRange(declarations, name).Some? then FirstRange(declarations, name)
            else if d.name == name && !IsWorkspace(d.range) then Some(d.range) else None
  {
    var all := declarations + [d];
    assert all[..|all| - 1] == declarations;
    assert forall e :: e in all <==> e in declarations || e == d;
  }

  lemma TakenDescribes(c: Context, declarations: seq<Declaration>, f: Merged, d: Declaration, name: string)
    requires Describes(c, declarations, f, name) && Taken(c, f, d).Ok?
    ensures Describes(c, declarations + [d], Taken(c, f, d).value, name)
  {
    OneMoreDeclared(c, declarations, d, name);
  }

  lemma {:induction false} MergedDescribes(c: Context, declarations: seq<Declaration>)
    requires MergedAll(c, declarations).Ok?
    ensures DescribesAll(c, declarations, MergedAll(c, declarations).value)
  {
    if declarations != [] {
      var p := |declarations| - 1;
      var f := MergedAll(c, declarations[..p]).value;
      MergedDescribes(c, declarations[..p]);
      assert declarations[..p] + [declarations[p]] == declarations;
      forall name ensures Describes(c, declarations, MergedAll(c, declarations).value, name) {
        TakenDescribes(c, declarations[..p], f, declarations[p], name);
      }
    }
  }

  // ------------------------------------------------------------ when it succeeds

  /** Every range declared for `name` outside the workspace is the same. */
  ghost predicate AgreeOn(declarations: seq<Declaration>, name: string) {
    forall d, e ::
      (d in declarations && e in declarations && d.name == name && e.name == name && !IsWorkspace(d.range) && !IsWorkspace(e.range)) ==>
        d.range == e.range
  }

  ghost predicate Agree(declarations: seq<Declaration>) {
    forall name :: AgreeOn(declarations, name)
  }

  ghost predicate AllBundled(c: Context, declarations: seq<Declaration>) {
    forall d :: d in declarations && IsWorkspace(d.range) ==> d.name in c.published || d.name in c.versions
  }

  /** With one range a name and every workspace package bundled, nothing is refused. */
  lemma {:induction false} AgreeingIsMerged(c: Context, declarations: seq<Declaration>)
    requires Agree(declarations) && AllBundled(c, declarations)
    ensures MergedAll(c, declarations).Ok?
  {
    if declarations != [] {
      var p := |declarations| - 1;
      var d := declarations[p];
      assert forall e :: e in declarations[..p] ==> e in declarations;
      assert forall name :: AgreeOn(declarations, name) ==> AgreeOn(declarations[..p], name);
      AgreeingIsMerged(c, declarations[..p]);
      MergedDescribes(c, declarations[..p]);
      assert Describes(c, declarations[..p], MergedAll(c, declarations[..p]).value, d.name);
      assert AgreeOn(declarations, d.name);
      if !IsWorkspace(d.range) {
        assert forall range :: range in Ranges(declarations[..p], d.name) ==> range == d.range;
      }
    }
  }

  /** What is merged had every workspace package bundled, and ranges that differ only for a bundled name. */
  lemma MergedMeansAgreeing(c: Context, declarations: seq<Declaration>, name: string)
    requires MergedAll(c, declarations).Ok?
    ensures AllBundled(c, declarations)
    ensures Bundles(c, declarations, name) || AgreeOn(declarations, name)
  {
    MergedDescribes(c, declarations);
    var f := MergedAll(c, declarations).value;
    forall d | d in declarations && IsWorkspace(d.range) ensures d.name in c.published || d.name in c.versions {
      assert Describes(c, declarations, f, d.name);
    }
    assert Describes(c, declarations, f, name);
    if !Bundles(c, declarations, name) {
      assert forall d :: d in declarations && d.name == name && !IsWorkspace(d.range) ==> d.range in Ranges(declarations, name);
    }
  }

  /** No name is declared both as a bundled workspace package and with a range. */
  ghost predicate Unmixed(c: Context, declarations: seq<Declaration>) {
    forall d :: d in declarations && Bundles(c, declarations, d.name) ==> IsWorkspace(d.range)
  }

  /** It succeeds exactly when every name has one range and every workspace package is bundled. */
  lemma SucceedsExactlyWhenAgreed(c: Context, declarations: seq<Declaration>)
    requires Unmixed(c, declarations)
    ensures MergedAll(c, declarations).Ok? <==> Agree(declarations) && AllBundled(c, declarations)
  {
    if Agree(declarations) && AllBundled(c, declarations) {
      AgreeingIsMerged(c, declarations);
    } else if MergedAll(c, declarations).Ok? {
      MergedMeansAgreeing(c, declarations, "");
      forall name ensures AgreeOn(declarations, name) {
        MergedMeansAgreeing(c, declarations, name);
      }
    }
  }

  /** A name is required and optional at once exactly when it is bundled, given a range somewhere, and made optional. */
  lemma RequiredAndOptionalExactlyWhenMixed(c: Context, declarations: seq<Declaration>, name: string)
    requires MergedAll(c, declarations).Ok?
    ensures var f := MergedAll(c, declarations).value;
            name in f.dependencies && name in f.optional <==>
              Bundles(c, declarations, name) && Ranges(declarations, name) != {} && name in c.optional
  {
    MergedDescribes(c, declarations);
    assert Describes(c, declarations, MergedAll(c, declarations).value, name);
  }

  // --------------------------------------------------------- in whatever order

  lemma {:induction false} DeclaredBySome(manifests: seq<Manifest>, d: Declaration)
    ensures d in Declarations(manifests) <==> exists m :: m in manifests && d in DeclarationsOf(m)
  {
    if manifests != [] {
      var p := |manifests| - 1;
      DeclaredBySome(manifests[..p], d);
      assert manifests == manifests[..p] + [manifests[p]];
    }
  }

  ghost predicate SameManifests(a: seq<Manifest>, b: seq<Manifest>) {
    multiset(a) == multiset(b)
  }

  lemma SameManifestsDeclareTheSame(a: seq<Manifest>, b: seq<Manifest>, d: Declaration)
    requires SameManifests(a, b)
    ensures d in Declarations(a) <==> d in Declarations(b)
  {
    DeclaredBySome(a, d);
    DeclaredBySome(b, d);
    assert forall m :: m in a <==> m in multiset(a);
    assert forall m :: m in b <==> m in multiset(b);
  }

  /** What every name comes to leaves no choice, once the ranges agree. */
  lemma DescribedOnce(c: Context, a: seq<Declaration>, f: Merged, b: seq<Declaration>, g: Merged)
    requires DescribesAll(c, a, f) && DescribesAll(c, b, g) && Agree(a) && forall d :: d in a <==> d in b
    ensures f == g
  {
    forall name
      ensures name in f.bundle <==> name in g.bundle
      ensures name in f.dependencies <==> name in g.dependencies
      ensures name in f.dependencies && name in g.dependencies ==> f.dependencies[name] == g.dependencies[name]
      ensures name in f.optional <==> name in g.optional
      ensures name in f.optional && name in g.optional ==> f.optional[name] == g.optional[name]
    {
      assert Describes(c, a, f, name) && Describes(c, b, g, name) && AgreeOn(a, name);
      assert Ranges(a, name) == Ranges(b, name);
      assert forall r, s :: r in Ranges(a, name) && s in Ranges(a, name) ==> r == s;
    }
    assert f.bundle == g.bundle && f.dependencies == g.dependencies && f.optional == g.optional;
  }

  /** Agreed ranges come to the same fields whatever order the manifests are in. */
  lemma OrderDecidesNothing(c: Context, a: seq<Manifest>, b: seq<Manifest>)
    requires SameManifests(a, b) && Agree(Declarations(a)) && AllBundled(c, Declarations(a))
    ensures MergedAll(c, Declarations(a)).Ok? && MergedAll(c, Declarations(b)) == MergedAll(c, Declarations(a))
  {
    forall d ensures d in Declarations(a) <==> d in Declarations(b) {
      SameManifestsDeclareTheSame(a, b, d);
    }
    assert forall name :: AgreeOn(Declarations(a), name) ==> AgreeOn(Declarations(b), name);
    AgreeingIsMerged(c, Declarations(a));
    AgreeingIsMerged(c, Declarations(b));
    MergedDescribes(c, Declarations(a));
    MergedDescribes(c, Declarations(b));
    DescribedOnce(c, Declarations(a), MergedAll(c, Declarations(a)).value, Declarations(b), MergedAll(c, Declarations(b)).value);
  }

  predicate DeclaresWorkspace(m: Manifest, name: string) {
    name in m.dependencies && IsWorkspace(m.dependencies[name])
  }

  function Picked(manifests: seq<Manifest>, name: string, workspace: bool): seq<Manifest> {
    if manifests == [] then []
    else (if DeclaresWorkspace(manifests[0], name) == workspace then [manifests[0]] else []) + Picked(manifests[1..], name, workspace)
  }

  lemma {:induction false} PickedApart(manifests: seq<Manifest>, name: string)
    ensures SameManifests(Picked(manifests, name, false) + Picked(manifests, name, true), manifests)
    ensures forall m :: m in Picked(manifests, name, false) <==> m in manifests && !DeclaresWorkspace(m, name)
  {
    if manifests != [] {
      PickedApart(manifests[1..], name);
      assert manifests == [manifests[0]] + manifests[1..];
    }
  }

  /** Wherever two ranges differ, some order of the manifests is refused. */
  lemma SomeOrderIsRefused(c: Context, manifests: seq<Manifest>, name: string)
    requires !AgreeOn(Declarations(manifests), name)
    ensures exists order :: SameManifests(order, manifests) && MergedAll(c, Declarations(order)).Refused?
  {
    var first := Picked(manifests, name, false);
    var order := first + Picked(manifests, name, true);
    PickedApart(manifests, name);
    RangesComeFirst(manifests, first, name);
    if MergedAll(c, Declarations(first)).Ok? {
      MergedMeansAgreeing(c, Declarations(first), name);
      assert false;
    }
    assert order[..|first|] == first;
    DeclarationsInTwo(order, |first|);
    RefusedStays(c, Declarations(order), |Declarations(first)|);
    assert SameManifests(order, manifests);
  }

  lemma RangesComeFirst(manifests: seq<Manifest>, first: seq<Manifest>, name: string)
    requires forall m :: m in first <==> m in manifests && !DeclaresWorkspace(m, name)
    ensures AgreeOn(Declarations(first), name) ==> AgreeOn(Declarations(manifests), name)
    ensures forall d :: d in Declarations(first) && d.name == name ==> !IsWorkspace(d.range)
  {
    forall d ensures d in Declarations(manifests) && d.name == name && !IsWorkspace(d.range) ==> d in Declarations(first)
             ensures d in Declarations(first) && d.name == name ==> !IsWorkspace(d.range)
    {
      DeclaredBySome(manifests, d);
      DeclaredBySome(first, d);
    }
  }

  /** Every order of the manifests is accepted exactly when every name has one range and every workspace package is bundled. */
  lemma EveryOrderSucceedsExactlyWhenAgreed(c: Context, manifests: seq<Manifest>)
    ensures (forall order :: SameManifests(order, manifests) ==> MergedAll(c, Declarations(order)).Ok?) <==>
            Agree(Declarations(manifests)) && AllBundled(c, Declarations(manifests))
  {
    if Agree(Declarations(manifests)) && AllBundled(c, Declarations(manifests)) {
      forall order | SameManifests(order, manifests) ensures MergedAll(c, Declarations(order)).Ok? {
        OrderDecidesNothing(c, manifests, order);
      }
    } else if MergedAll(c, Declarations(manifests)).Ok? {
      MergedMeansAgreeing(c, Declarations(manifests), "");
      var name :| !AgreeOn(Declarations(manifests), name);
      SomeOrderIsRefused(c, manifests, name);
    } else {
      assert SameManifests(manifests, manifests);
    }
  }

  // -------------------------------------------------- what an order can decide

  /** One answer, but for which manifest an error names. */
  ghost predicate SameOutcome(a: Result<Merged, Refusal>, b: Result<Merged, Refusal>) {
    a.Ok? == b.Ok? && (a.Ok? ==> a == b)
  }

  ghost predicate EveryOrderAnswers(c: Context, manifests: seq<Manifest>, answer: Result<Merged, Refusal>) {
    forall order :: SameManifests(order, manifests) ==> SameOutcome(MergedAll(c, Declarations(order)), answer)
  }

  /** Once one order has been accepted, every order comes to the same fields exactly when every name has one range. */
  lemma AcceptedOrderSpeaksForAllExactlyWhenAgreed(c: Context, manifests: seq<Manifest>)
    requires MergedAll(c, Declarations(manifests)).Ok?
    ensures EveryOrderAnswers(c, manifests, MergedAll(c, Declarations(manifests))) <==> Agree(Declarations(manifests))
  {
    MergedMeansAgreeing(c, Declarations(manifests), "");
    if Agree(Declarations(manifests)) {
      forall order | SameManifests(order, manifests)
        ensures SameOutcome(MergedAll(c, Declarations(order)), MergedAll(c, Declarations(manifests)))
      {
        OrderDecidesNothing(c, manifests, order);
      }
    } else {
      var name :| !AgreeOn(Declarations(manifests), name);
      SomeOrderIsRefused(c, manifests, name);
    }
  }

  lemma SameManifestsAgreeTheSame(c: Context, a: seq<Manifest>, b: seq<Manifest>, name: string)
    requires SameManifests(a, b)
    ensures AgreeOn(Declarations(a), name) <==> AgreeOn(Declarations(b), name)
    ensures AllBundled(c, Declarations(a)) <==> AllBundled(c, Declarations(b))
    ensures Bundles(c, Declarations(a), name) <==> Bundles(c, Declarations(b), name)
  {
    forall d ensures d in Declarations(a) <==> d in Declarations(b) {
      SameManifestsDeclareTheSame(a, b, d);
    }
  }

  /** A name bundled by then is never a reason to refuse. */
  lemma {:induction false} OnceBundledIsAccepted(c: Context, declarations: seq<Declaration>, n: nat, name: string)
    requires n <= |declarations| && MergedAll(c, declarations[..n]).Ok? && Bundles(c, declarations[..n], name)
    requires AllBundled(c, declarations) && forall other :: other != name ==> AgreeOn(declarations, other)
    ensures MergedAll(c, declarations).Ok?
    decreases |declarations|
  {
    if n == |declarations| {
      assert declarations[..n] == declarations;
    } else {
      var p := |declarations| - 1;
      var front, d := declarations[..p], declarations[p];
      assert front[..n] == declarations[..n];
      assert forall e :: e in front ==> e in declarations;
      forall other | other != name ensures AgreeOn(front, other) { assert AgreeOn(declarations, other); }
      OnceBundledIsAccepted(c, front, n, name);
      MergedDescribes(c, front);
      TakenOnceBundled(c, declarations, name);
    }
  }

  lemma TakenOnceBundled(c: Context, declarations: seq<Declaration>, name: string)
    requires declarations != [] && AllBundled(c, declarations)
    requires forall other :: other != name ==> AgreeOn(declarations, other)
    requires MergedAll(c, declarations[..|declarations| - 1]).Ok?
    requires DescribesAll(c, declarations[..|declarations| - 1], MergedAll(c, declarations[..|declarations| - 1]).value)
    requires exists e :: e in declarations[..|declarations| - 1] && e.name == name && IsWorkspace(e.range)
    requires name !in c.published
    ensures MergedAll(c, declarations).Ok?
  {
    var front, d := declarations[..|declarations| - 1], declarations[|declarations| - 1];
    assert Describes(c, front, MergedAll(c, front).value, d.name);
    assert d in declarations;
    if d.name != name && !IsWorkspace(d.range) {
      assert AgreeOn(declarations, d.name);
      assert forall e :: e in front ==> e in declarations;
      assert forall range :: range in Ranges(front, d.name) ==> range == d.range;
    }
  }

  lemma PickedWorkspace(manifests: seq<Manifest>, name: string)
    ensures SameManifests(Picked(manifests, name, true) + Picked(manifests, name, false), manifests)
    ensures forall m :: m in Picked(manifests, name, true) <==> m in manifests && DeclaresWorkspace(m, name)
  {
    PickedApart(manifests, name);
    var first, rest := Picked(manifests, name, true), Picked(manifests, name, false);
    assert multiset(first + rest) == multiset(rest + first);
    forall m ensures m in first <==> m in manifests && DeclaresWorkspace(m, name) { PickedOne(manifests, name, m); }
  }

  lemma {:induction false} PickedOne(manifests: seq<Manifest>, name: string, m: Manifest)
    ensures m in Picked(manifests, name, true) <==> m in manifests && DeclaresWorkspace(m, name)
  {
    if manifests != [] { PickedOne(manifests[1..], name, m); }
  }

  lemma WorkspaceComesFirst(c: Context, manifests: seq<Manifest>, first: seq<Manifest>, name: string)
    requires forall m :: m in first <==> m in manifests && DeclaresWorkspace(m, name)
    requires AllBundled(c, Declarations(manifests)) && forall other :: other != name ==> AgreeOn(Declarations(manifests), other)
    ensures Agree(Declarations(first)) && AllBundled(c, Declarations(first))
    ensures Bundles(c, Declarations(manifests), name) ==> Bundles(c, Declarations(first), name)
  {
    forall d ensures d in Declarations(first) ==> d in Declarations(manifests) && (d.name == name ==> IsWorkspace(d.range))
             ensures d in Declarations(manifests) && d.name == name && IsWorkspace(d.range) ==> d in Declarations(first)
    {
      DeclaredBySome(manifests, d);
      DeclaredBySome(first, d);
    }
    forall other ensures AgreeOn(Declarations(first), other) {
      if other != name { assert AgreeOn(Declarations(manifests), other); }
    }
  }

  /** Where only a bundled name's ranges differ, some order is accepted: the one that bundles it first. */
  lemma SomeOrderIsAccepted(c: Context, manifests: seq<Manifest>, name: string)
    requires AllBundled(c, Declarations(manifests)) && Bundles(c, Declarations(manifests), name)
    requires forall other :: other != name ==> AgreeOn(Declarations(manifests), other)
    ensures exists order :: SameManifests(order, manifests) && MergedAll(c, Declarations(order)).Ok?
  {
    var first := Picked(manifests, name, true);
    var order := first + Picked(manifests, name, false);
    PickedWorkspace(manifests, name);
    WorkspaceComesFirst(c, manifests, first, name);
    AgreeingIsMerged(c, Declarations(first));
    assert order[..|first|] == first;
    DeclarationsInTwo(order, |first|);
    SameManifestsAgreeTheSame(c, order, manifests, name);
    forall other | other != name ensures AgreeOn(Declarations(order), other) {
      SameManifestsAgreeTheSame(c, order, manifests, other);
    }
    OnceBundledIsAccepted(c, Declarations(order), |Declarations(first)|, name);
    assert SameManifests(order, manifests);
  }

  lemma EveryOrderIsRefused(c: Context, manifests: seq<Manifest>, order: seq<Manifest>, name: string)
    requires SameManifests(order, manifests)
    requires !AllBundled(c, Declarations(manifests)) ||
             (!AgreeOn(Declarations(manifests), name) && !Bundles(c, Declarations(manifests), name))
    ensures MergedAll(c, Declarations(order)).Refused?
  {
    SameManifestsAgreeTheSame(c, order, manifests, name);
    if MergedAll(c, Declarations(order)).Ok? { MergedMeansAgreeing(c, Declarations(order), name); }
  }

  /**
   * Where at most one name has two ranges, the order of the manifests decides
   * nothing exactly unless that name is bundled and nothing else is amiss.
   */
  lemma OrderDecidesNothingExactly(c: Context, manifests: seq<Manifest>, name: string)
    requires forall other :: other != name ==> AgreeOn(Declarations(manifests), other)
    ensures EveryOrderAnswers(c, manifests, MergedAll(c, Declarations(manifests))) <==>
              || AgreeOn(Declarations(manifests), name)
              || !AllBundled(c, Declarations(manifests))
              || !Bundles(c, Declarations(manifests), name)
  {
    var all := Declarations(manifests);
    if AgreeOn(all, name) && AllBundled(c, all) {
      assert Agree(all);
      OrderDecidesNothing(c, manifests, manifests);
      AcceptedOrderSpeaksForAllExactlyWhenAgreed(c, manifests);
    } else if !AllBundled(c, all) || !Bundles(c, all, name) {
      forall order | SameManifests(order, manifests) ensures MergedAll(c, Declarations(order)).Refused? {
        EveryOrderIsRefused(c, manifests, order, name);
      }
      assert SameManifests(manifests, manifests);
    } else {
      SomeOrderIsAccepted(c, manifests, name);
      SomeOrderIsRefused(c, manifests, name);
    }
  }

  // ------------------------------------------------------ two orders that differ

  const Workspace := Manifest("w", "1.0.0", map["n" := "workspace:*"])
  const AtOne := Manifest("a", "1.0.0", map["n" := "1"])
  const AtTwo := Manifest("b", "1.0.0", map["n" := "2"])

  lemma DeclaresOne(m: Manifest, range: string)
    requires m.dependencies == map["n" := range]
    ensures DeclarationsOf(m) == [Declaration(m.name, "n", range)]
  {
    var names := Names.Sorted({"n"});
    assert m.dependencies.Keys == {"n"};
    assert "n" in names;
    assert forall i :: 0 <= i < |names| ==> names[i] in names && names[i] == "n";
    assert |names| == 1;
  }

  lemma ThreeDeclarations(a: Manifest, x: string, b: Manifest, y: string, d: Manifest, z: string)
    requires a.dependencies == map["n" := x] && b.dependencies == map["n" := y] && d.dependencies == map["n" := z]
    ensures Declarations([a, b, d]) == [Declaration(a.name, "n", x), Declaration(b.name, "n", y), Declaration(d.name, "n", z)]
  {
    DeclaresOne(a, x);
    DeclaresOne(b, y);
    DeclaresOne(d, z);
    var none: seq<Manifest> := [];
    assert Declarations(none) == [];
    AppendManifest(none, a);
    AppendManifest([a], b);
    AppendManifest([a, b], d);
    assert none + [a] == [a] && [a] + [b] == [a, b] && [a, b] + [d] == [a, b, d];
  }

  lemma AppendManifest(manifests: seq<Manifest>, m: Manifest)
    ensures Declarations(manifests + [m]) == Declarations(manifests) + DeclarationsOf(m)
  {
    assert (manifests + [m])[..|manifests|] == manifests;
  }

  lemma Swapped(a: Manifest, b: Manifest, d: Manifest)
    ensures SameManifests([a, b, d], [b, d, a]) && SameManifests([a, b, d], [a, d, b])
  {
    assert multiset([a, b, d]) == multiset{a, b, d} == multiset([b, d, a]);
    assert multiset([a, d, b]) == multiset{a, b, d};
  }

  lemma MergedThree(c: Context, x: Declaration, y: Declaration, z: Declaration)
    ensures MergedAll(c, [x]) == Taken(c, Merged(map[], map[], {}), x)
    ensures MergedAll(c, [x, y]) == (if MergedAll(c, [x]).Refused? then MergedAll(c, [x]) else Taken(c, MergedAll(c, [x]).value, y))
    ensures MergedAll(c, [x, y, z]) ==
            if MergedAll(c, [x, y]).Refused? then MergedAll(c, [x, y]) else Taken(c, MergedAll(c, [x, y]).value, z)
  {
    assert [x, y, z][..2] == [x, y] && [x, y][..1] == [x] && [x][..0] == [];
  }

  lemma RangesAreApart()
    ensures IsWorkspace("workspace:*") && !IsWorkspace("1") && !IsWorkspace("2") && "1" != "2"
  {
    assert "1"[0] != "2"[0];
  }

  const Nothing := Merged(map[], map[], {})
  const Bundled := Merged(map["n" := "9"], map[], {"n"})
  const W := Declaration("w", "n", "workspace:*")
  const A := Declaration("a", "n", "1")
  const B := Declaration("b", "n", "2")

  /** What each declaration does to each of the fields it can meet. */
  lemma TakenOneByOne(optional: set<string>)
    ensures var c := Context({}, map["n" := "9"], optional);
            && Taken(c, Nothing, W) == Ok(Bundled)
            && ("n" !in optional ==>
                  && Taken(c, Bundled, A) == Ok(Bundled) && Taken(c, Bundled, B) == Ok(Bundled)
                  && Taken(c, Nothing, A) == Ok(Nothing.(dependencies := map["n" := "1"]))
                  && Taken(c, Nothing.(dependencies := map["n" := "1"]), B) == Refused(Disagree("n", "b")))
            && ("n" in optional ==>
                  && Taken(c, Bundled, A) == Ok(Bundled.(optional := map["n" := "1"]))
                  && Taken(c, Bundled.(optional := map["n" := "1"]), B) == Ok(Bundled.(optional := map["n" := "1"]))
                  && Taken(c, Bundled, B) == Ok(Bundled.(optional := map["n" := "2"]))
                  && Taken(c, Bundled.(optional := map["n" := "2"]), A) == Ok(Bundled.(optional := map["n" := "2"])))
  {
    RangesAreApart();
    assert Nothing.dependencies["n" := "9"] == map["n" := "9"] && Nothing.bundle + {"n"} == {"n"};
    assert Nothing.dependencies["n" := "1"] == map["n" := "1"];
    assert Bundled.optional["n" := "1"] == map["n" := "1"] && Bundled.optional["n" := "2"] == map["n" := "2"];
  }

  /** The three of them are accepted in one order and refused in another. */
  lemma OneOrderIsAcceptedAnotherRefused()
    ensures var c := Context({}, map["n" := "9"], {});
            && SameManifests([Workspace, AtOne, AtTwo], [AtOne, AtTwo, Workspace])
            && MergedAll(c, Declarations([Workspace, AtOne, AtTwo])) == Ok(Bundled)
            && MergedAll(c, Declarations([AtOne, AtTwo, Workspace])) == Refused(Disagree("n", "b"))
  {
    var c := Context({}, map["n" := "9"], {});
    TakenOneByOne({});
    Swapped(Workspace, AtOne, AtTwo);
    ThreeDeclarations(Workspace, "workspace:*", AtOne, "1", AtTwo, "2");
    ThreeDeclarations(AtOne, "1", AtTwo, "2", Workspace, "workspace:*");
    MergedThree(c, W, A, B);
    MergedThree(c, A, B, W);
  }

  /** With the name optional, two orders are accepted and publish different ranges. */
  lemma TwoOrdersAreAcceptedAndDiffer()
    ensures var c := Context({}, map["n" := "9"], {"n"});
            && SameManifests([Workspace, AtOne, AtTwo], [Workspace, AtTwo, AtOne])
            && MergedAll(c, Declarations([Workspace, AtOne, AtTwo])) == Ok(Bundled.(optional := map["n" := "1"]))
            && MergedAll(c, Declarations([Workspace, AtTwo, AtOne])) == Ok(Bundled.(optional := map["n" := "2"]))
  {
    var c := Context({}, map["n" := "9"], {"n"});
    TakenOneByOne({"n"});
    Swapped(Workspace, AtOne, AtTwo);
    ThreeDeclarations(Workspace, "workspace:*", AtOne, "1", AtTwo, "2");
    ThreeDeclarations(Workspace, "workspace:*", AtTwo, "2", AtOne, "1");
    MergedThree(c, W, A, B);
    MergedThree(c, W, B, A);
  }

  // ------------------------------------------------------------ what is bundled

  ghost predicate DistinctNames(bundled: seq<Manifest>) {
    forall j, k :: 0 <= j < k < |bundled| ==> bundled[j].name != bundled[k].name
  }

  lemma {:induction false} VersionsAreTheirOwn(bundled: seq<Manifest>, name: string)
    requires DistinctNames(bundled)
    ensures name in Versions(bundled) <==> exists m :: m in bundled && m.name == name
    ensures forall m :: m in bundled ==> m.name in Versions(bundled) && Versions(bundled)[m.name] == m.version
  {
    if bundled != [] {
      var p := |bundled| - 1;
      VersionsAreTheirOwn(bundled[..p], name);
      assert bundled == bundled[..p] + [bundled[p]];
      assert forall m :: m in bundled[..p] ==> m.name != bundled[p].name;
    }
  }

  /** Each bundled package is published at exactly the version of its own manifest. */
  lemma BundledArePinned(t: Target, manifests: seq<Manifest>, bundled: seq<Manifest>, hasNodeEngine: bool, name: string)
    requires DistinctNames(bundled) && Published(t, manifests, bundled, hasNodeEngine).Ok?
    requires name in Published(t, manifests, bundled, hasNodeEngine).value.bundle
    ensures exists m :: m in bundled && m.name == name
    ensures var published := Published(t, manifests, bundled, hasNodeEngine).value;
            forall m :: m in bundled && m.name == name ==> name in published.dependencies && published.dependencies[name] == m.version
  {
    var c, all := ContextFor(t, bundled), Declarations(manifests + bundled);
    MergedDescribes(c, all);
    assert Describes(c, all, MergedAll(c, all).value, name);
    VersionsAreTheirOwn(bundled, name);
  }

  lemma SameVersions(a: seq<Manifest>, b: seq<Manifest>)
    requires SameManifests(a, b) && DistinctNames(a) && DistinctNames(b)
    ensures Versions(a) == Versions(b)
  {
    assert forall m :: m in a <==> m in multiset(a);
    assert forall m :: m in b <==> m in multiset(b);
    forall name ensures name in Versions(a) <==> name in Versions(b)
                ensures name in Versions(a) && name in Versions(b) ==> Versions(a)[name] == Versions(b)[name]
    {
      VersionsAreTheirOwn(a, name);
      VersionsAreTheirOwn(b, name);
    }
  }

  /** With agreed ranges the published fields do not depend on the order of either list. */
  lemma OrdersOfBothDecideNothing(t: Target, manifests: seq<Manifest>, bundled: seq<Manifest>,
                                  manifests': seq<Manifest>, bundled': seq<Manifest>, hasNodeEngine: bool)
    requires SameManifests(manifests, manifests') && SameManifests(bundled, bundled')
    requires DistinctNames(bundled) && DistinctNames(bundled')
    requires Agree(Declarations(manifests + bundled)) && AllBundled(ContextFor(t, bundled), Declarations(manifests + bundled))
    ensures Published(t, manifests, bundled, hasNodeEngine) == Published(t, manifests', bundled', hasNodeEngine)
    ensures Published(t, manifests, bundled, hasNodeEngine).Ok? <==> hasNodeEngine
  {
    SameVersions(bundled, bundled');
    assert SameManifests(manifests + bundled, manifests' + bundled');
    OrderDecidesNothing(ContextFor(t, bundled), manifests + bundled, manifests' + bundled');
  }

  // ------------------------------------------ what is published, manifest by manifest

  /** `m` is one of the manifests, or of a bundled package, and depends on `name`. */
  ghost predicate DependsOn(manifests: seq<Manifest>, bundled: seq<Manifest>, m: Manifest, name: string) {
    (m in manifests || m in bundled) && name in m.dependencies
  }

  /** One of them asks for `name` at `range`, outside the workspace. */
  ghost predicate Asks(manifests: seq<Manifest>, bundled: seq<Manifest>, name: string, range: string) {
    !("workspace:" <= range) && exists m :: DependsOn(manifests, bundled, m, name) && m.dependencies[name] == range
  }

  ghost predicate IsAsked(manifests: seq<Manifest>, bundled: seq<Manifest>, name: string) {
    exists range :: Asks(manifests, bundled, name, range)
  }

  /** One of them asks for `name` out of the workspace, and it is not released on its own. */
  ghost predicate GoesInTheBundle(t: Target, manifests: seq<Manifest>, bundled: seq<Manifest>, name: string) {
    name !in t.published && exists m :: DependsOn(manifests, bundled, m, name) && "workspace:" <= m.dependencies[name]
  }

  ghost predicate AsksAt(all: seq<Manifest>, i: nat, name: string) {
    i < |all| && name in all[i].dependencies && !("workspace:" <= all[i].dependencies[name])
  }

  ghost predicate AsksFirst(all: seq<Manifest>, i: nat, name: string) {
    AsksAt(all, i, name) && forall j: nat :: j < i ==> !AsksAt(all, j, name)
  }

  ghost predicate IsLastNamed(bundled: seq<Manifest>, i: nat, name: string) {
    i < |bundled| && bundled[i].name == name && forall j :: i < j < |bundled| ==> bundled[j].name != name
  }

  lemma DeclaresItsDependencies(m: Manifest, d: Declaration)
    ensures d in DeclarationsOf(m) <==> d.declarer == m.name && d.name in m.dependencies && d.range == m.dependencies[d.name]
  {
    var names := Names.Sorted(m.dependencies.Keys);
    assert forall i :: 0 <= i < |names| ==> names[i] in names;
    if d.declarer == m.name && d.name in m.dependencies && d.range == m.dependencies[d.name] {
      assert d.name in names;
      var i :| 0 <= i < |names| && names[i] == d.name;
      assert DeclarationsOf(m)[i] == d;
    }
  }

  lemma DeclaredByOneOfThem(manifests: seq<Manifest>, bundled: seq<Manifest>, d: Declaration)
    ensures d in Declarations(manifests + bundled) <==>
            exists m :: DependsOn(manifests, bundled, m, d.name) && m.name == d.declarer && m.dependencies[d.name] == d.range
  {
    var all := manifests + bundled;
    DeclaredBySome(all, d);
    forall m ensures m in all && d in DeclarationsOf(m) <==>
                     DependsOn(manifests, bundled, m, d.name) && m.name == d.declarer && m.dependencies[d.name] == d.range {
      DeclaresItsDependencies(m, d);
    }
  }

  lemma RangesAreTheAsked(manifests: seq<Manifest>, bundled: seq<Manifest>, name: string, range: string)
    ensures range in Ranges(Declarations(manifests + bundled), name) <==> Asks(manifests, bundled, name, range)
  {
    var all := Declarations(manifests + bundled);
    if range in Ranges(all, name) {
      var d :| d in all && d.name == name && !IsWorkspace(d.range) && d.range == range;
      DeclaredByOneOfThem(manifests, bundled, d);
    }
    if Asks(manifests, bundled, name, range) {
      var m :| DependsOn(manifests, bundled, m, name) && m.dependencies[name] == range;
      var d := Declaration(m.name, name, range);
      DeclaredByOneOfThem(manifests, bundled, d);
      assert d in all;
    }
  }

  lemma BundlesWhatGoesInTheBundle(t: Target, manifests: seq<Manifest>, bundled: seq<Manifest>, name: string)
    ensures Bundles(ContextFor(t, bundled), Declarations(manifests + bundled), name) <==>
            GoesInTheBundle(t, manifests, bundled, name)
  {
    var all := Declarations(manifests + bundled);
    if Bundles(ContextFor(t, bundled), all, name) {
      var d :| d in all && d.name == name && IsWorkspace(d.range);
      DeclaredByOneOfThem(manifests, bundled, d);
    }
    if GoesInTheBundle(t, manifests, bundled, name) {
      var m :| DependsOn(manifests, bundled, m, name) && "workspace:" <= m.dependencies[name];
      DeclaredByOneOfThem(manifests, bundled, Declaration(m.name, name, m.dependencies[name]));
    }
  }

  lemma {:induction false} LastNamedWins(bundled: seq<Manifest>, name: string)
    ensures name in Versions(bundled) ==> exists i: nat :: IsLastNamed(bundled, i, name) && bundled[i].version == Versions(bundled)[name]
    ensures name !in Versions(bundled) ==> forall m :: m in bundled ==> m.name != name
  {
    if bundled != [] {
      var p := |bundled| - 1;
      LastNamedWins(bundled[..p], name);
      if bundled[p].name == name {
        assert IsLastNamed(bundled, p, name);
      } else if name in Versions(bundled) {
        var i: nat :| IsLastNamed(bundled[..p], i, name) && bundled[i].version == Versions(bundled)[name];
        assert IsLastNamed(bundled, i, name);
      }
    }
  }

  lemma {:induction false} FirstOfTwoLists(a: seq<Declaration>, b: seq<Declaration>, name: string, range: Option<string>)
    requires forall d :: d in b && d.name == name && !IsWorkspace(d.range) ==> range == Some(d.range)
    requires range.Some? ==> exists d :: d in b && d.name == name && !IsWorkspace(d.range)
    ensures FirstRange(a + b, name) == if FirstRange(a, name).Some? then FirstRange(a, name) else range
    decreases |b|
  {
    if b == [] {
      assert a + b == a;
    } else {
      var p := |b| - 1;
      assert (a + b)[..|a + b| - 1] == a + b[..p] && (a + b)[|a + b| - 1] == b[p];
      assert b == b[..p] + [b[p]];
      var before := if exists d :: d in b[..p] && d.name == name && !IsWorkspace(d.range) then range else None;
      FirstOfTwoLists(a, b[..p], name, before);
    }
  }

  /** `range` is the one the first manifest that asks for `name` asks for. */
  ghost predicate IsFirstAsked(all: seq<Manifest>, name: string, range: Option<string>) {
    if range.None? then forall i: nat :: !AsksAt(all, i, name)
    else exists i: nat :: AsksFirst(all, i, name) && all[i].dependencies[name] == range.value
  }

  lemma FirstOfOneMore(all: seq<Manifest>, m: Manifest, name: string)
    ensures var before := FirstRange(Declarations(all), name);
            FirstRange(Declarations(all + [m]), name) ==
            if before.Some? then before
            else if name in m.dependencies && !("workspace:" <= m.dependencies[name]) then Some(m.dependencies[name]) else None
  {
    var range := if name in m.dependencies && !("workspace:" <= m.dependencies[name]) then Some(m.dependencies[name]) else None;
    forall d | d in DeclarationsOf(m) && d.name == name && !IsWorkspace(d.range) ensures range == Some(d.range) {
      DeclaresItsDependencies(m, d);
    }
    if range.Some? {
      DeclaresItsDependencies(m, Declaration(m.name, name, range.value));
    }
    FirstOfTwoLists(Declarations(all), DeclarationsOf(m), name, range);
    AppendManifest(all, m);
  }

  lemma AskedBeforeOneMore(all: seq<Manifest>, m: Manifest, name: string, j: nat)
    requires j < |all|
    ensures AsksAt(all + [m], j, name) <==> AsksAt(all, j, name)
  {
  }

  lemma FirstAskedWithOneMore(all: seq<Manifest>, m: Manifest, name: string, range: Option<string>)
    requires IsFirstAsked(all, name, range)
    ensures range.Some? ==> IsFirstAsked(all + [m], name, range)
    ensures range.None? && name in m.dependencies && !("workspace:" <= m.dependencies[name]) ==>
              IsFirstAsked(all + [m], name, Some(m.dependencies[name]))
    ensures range.None? && (name !in m.dependencies || "workspace:" <= m.dependencies[name]) ==> IsFirstAsked(all + [m], name, None)
  {
    forall j: nat | j < |all| ensures AsksAt(all + [m], j, name) <==> AsksAt(all, j, name) {
      AskedBeforeOneMore(all, m, name, j);
    }
    if range.Some? {
      var i: nat :| AsksFirst(all, i, name) && all[i].dependencies[name] == range.value;
      assert AsksFirst(all + [m], i, name);
    } else if name in m.dependencies && !("workspace:" <= m.dependencies[name]) {
      assert AsksFirst(all + [m], |all|, name);
    }
  }

  lemma {:induction false} FirstRangeIsTheFirstAsked(all: seq<Manifest>, name: string)
    ensures IsFirstAsked(all, name, FirstRange(Declarations(all), name))
  {
    if all != [] {
      var p := |all| - 1;
      FirstRangeIsTheFirstAsked(all[..p], name);
      FirstOfOneMore(all[..p], all[p], name);
      FirstAskedWithOneMore(all[..p], all[p], name, FirstRange(Declarations(all[..p]), name));
      assert all[..p] + [all[p]] == all;
    }
  }

  /** Where `name` is published, and at what, as its declarations have it. */
  ghost predicate IsPublished(t: Target, manifests: seq<Manifest>, bundled: seq<Manifest>, f: Merged, name: string) {
    var inBundle := GoesInTheBundle(t, manifests, bundled, name);
    && (name in f.bundle <==> inBundle)
    && (name in f.dependencies <==> inBundle || (name !in t.optional && IsAsked(manifests, bundled, name)))
    && (name in f.optional <==> name in t.optional && IsAsked(manifests, bundled, name))
    && (inBundle ==> exists i: nat :: IsLastNamed(bundled, i, name) && f.dependencies[name] == bundled[i].version)
    && (forall range :: !inBundle && Asks(manifests, bundled, name, range) ==>
         (if name in t.optional then f.optional[name] else f.dependencies[name]) == range)
    && (name in f.optional ==>
         IsFirstAsked(manifests + bundled, name, Some(f.optional[name])))
  }

  /**
   * Every package that a manifest or a bundled package depends on is published,
   * in the field the target decides, and nothing else is: a bundled one at its
   * own version, another at the one range all who ask for it agree on.
   */
  lemma PublishedIsWhatIsDeclared(t: Target, manifests: seq<Manifest>, bundled: seq<Manifest>, hasNodeEngine: bool, name: string)
    requires Published(t, manifests, bundled, hasNodeEngine).Ok?
    ensures hasNodeEngine
    ensures IsPublished(t, manifests, bundled, Published(t, manifests, bundled, hasNodeEngine).value, name)
  {
    var c, all := ContextFor(t, bundled), Declarations(manifests + bundled);
    var f := MergedAll(c, all).value;
    MergedDescribes(c, all);
    assert Describes(c, all, f, name);
    BundlesWhatGoesInTheBundle(t, manifests, bundled, name);
    forall range ensures range in Ranges(all, name) <==> Asks(manifests, bundled, name, range) {
      RangesAreTheAsked(manifests, bundled, name, range);
    }
    assert Ranges(all, name) != {} <==> IsAsked(manifests, bundled, name) by {
      if IsAsked(manifests, bundled, name) {
        var range :| Asks(manifests, bundled, name, range);
        assert range in Ranges(all, name);
      }
    }
    LastNamedWins(bundled, name);
    FirstRangeIsTheFirstAsked(manifests + bundled, name);
  }

  /** What a refusal names is there: who declares it, and what is wrong with it. */
  ghost predicate IsReal(t: Target, manifests: seq<Manifest>, bundled: seq<Manifest>, hasNodeEngine: bool, why: Refusal) {
    match why
    case NotBundled(name, declarer) =>
      && name !in t.published && (forall b :: b in bundled ==> b.name != name)
      && exists m :: DependsOn(manifests, bundled, m, name) && m.name == declarer && "workspace:" <= m.dependencies[name]
    case Disagree(name, declarer) =>
      exists m, other ::
        && DependsOn(manifests, bundled, m, name) && m.name == declarer && !("workspace:" <= m.dependencies[name])
        && DependsOn(manifests, bundled, other, name) && !("workspace:" <= other.dependencies[name])
        && m.dependencies[name] != other.dependencies[name]
    case NoNodeEngine => !hasNodeEngine
  }

  ghost predicate Explains(c: Context, declarations: seq<Declaration>, why: Refusal) {
    match why
    case NotBundled(name, declarer) =>
      && name !in c.published && name !in c.versions
      && exists d :: d in declarations && d.name == name && d.declarer == declarer && IsWorkspace(d.range)
    case Disagree(name, declarer) =>
      exists d, e :: d in declarations && e in declarations && d.name == e.name == name && d.declarer == declarer
                     && !IsWorkspace(d.range) && !IsWorkspace(e.range) && d.range != e.range
    case NoNodeEngine => false
  }

  lemma {:induction false} RefusedIsExplained(c: Context, declarations: seq<Declaration>)
    requires MergedAll(c, declarations).Refused?
    ensures Explains(c, declarations, MergedAll(c, declarations).why)
  {
    var p := |declarations| - 1;
    var d := declarations[p];
    assert declarations == declarations[..p] + [d];
    var before := MergedAll(c, declarations[..p]);
    if before.Refused? {
      RefusedIsExplained(c, declarations[..p]);
    } else if !IsWorkspace(d.range) {
      MergedDescribes(c, declarations[..p]);
      assert Describes(c, declarations[..p], before.value, d.name);
      var other := if d.name in c.optional then before.value.optional[d.name] else before.value.dependencies[d.name];
      assert other in Ranges(declarations[..p], d.name);
    }
  }

  /** A refusal is never about something that is not there. */
  lemma RefusedForAReason(t: Target, manifests: seq<Manifest>, bundled: seq<Manifest>, hasNodeEngine: bool)
    requires Published(t, manifests, bundled, hasNodeEngine).Refused?
    ensures IsReal(t, manifests, bundled, hasNodeEngine, Published(t, manifests, bundled, hasNodeEngine).why)
  {
    var c, all := ContextFor(t, bundled), Declarations(manifests + bundled);
    var merged := MergedAll(c, all);
    if merged.Refused? {
      RefusedIsExplained(c, all);
      match merged.why
      case NotBundled(name, declarer) =>
        var d :| d in all && d.name == name && d.declarer == declarer && IsWorkspace(d.range);
        DeclaredByOneOfThem(manifests, bundled, d);
        LastNamedWins(bundled, name);
      case Disagree(name, declarer) =>
        var d, e :| d in all && e in all && d.name == e.name == name && d.declarer == declarer
                    && !IsWorkspace(d.range) && !IsWorkspace(e.range) && d.range != e.range;
        DeclaredByOneOfThem(manifests, bundled, d);
        DeclaredByOneOfThem(manifests, bundled, e);
      case NoNodeEngine =>
    }
  }
}
