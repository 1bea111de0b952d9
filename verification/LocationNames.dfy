/**
 * Locations as the strings the shrinkwrap is keyed by. On the names a registry
 * gives out the string forms and the lists of names say the same thing.
 */
module LocationNames {
  import opened Layouts

  const Folder := "node_modules/"
  const Nested := "/node_modules/"

  ghost predicate OccursAt(s: string, part: string, i: int) {
    0 <= i && i + |part| <= |s| && s[i..i + |part|] == part
  }

  /** The last place `part` occurs in `s`, at or before `i`; `-1` when there is none. */
  function LastIndexFrom(s: string, part: string, i: int): (last: int)
    requires i + |part| <= |s|
    ensures last == -1 || (0 <= last <= i && OccursAt(s, part, last))
    ensures forall j :: last < j <= i ==> !OccursAt(s, part, j)
    decreases i + 1
  {
    if i < 0 then -1 else if s[i..i + |part|] == part then i else LastIndexFrom(s, part, i - 1)
  }

  function LastIndexOf(s: string, part: string): (last: int)
    ensures last == -1 || OccursAt(s, part, last)
    ensures forall j :: last < j ==> !OccursAt(s, part, j)
  {
    LastIndexFrom(s, part, |s| - |part|)
  }

  function Under(owner: string, name: string): string {
    if owner == "" then Folder + name else owner + "/" + Folder + name
  }

  function OwnerOf(location: string): string {
    var cut := LastIndexOf(location, Nested);
    if cut == -1 then "" else location[..cut]
  }

  /** The name a location ends in, as `allowedScripts` cuts it out. */
  function NameOf(location: string): string {
    var start := LastIndexOf(location, Folder) + |Folder|;
    if start <= |location| then location[start..] else ""
  }

  function Render(l: Location): string {
    if l == [] then "" else Under(Render(Owner(l)), Last(l))
  }

  /** A name that could not be mistaken for a folder of its own. */
  ghost predicate PlainName(name: string) {
    forall i :: !OccursAt(name, Folder, i)
  }

  ghost predicate PlainNames(l: Location) {
    forall n :: n in l ==> PlainName(n)
  }

  /** Inside the folder's own spelling, neither marker starts a second time but at its last slash. */
  lemma MarkerOverlaps(i: int)
    requires 0 < i < |Nested|
    ensures Nested[i] == '/' ==> i == |Nested| - 1
    ensures i < |Folder| ==> Folder[i] != 'n'
    ensures Nested == "/" + Folder
  {
  }

  lemma NoLaterFolder(before: string, name: string, i: int)
    requires PlainName(name) && OccursAt(before + Folder + name, Folder, i)
    ensures i <= |before|
  {
    var s := before + Folder + name;
    if |before| < i {
      assert s[i] == Folder[0] == 'n';
      if i < |before| + |Folder| {
        assert s[i] == Folder[i - |before|];
        MarkerOverlaps(i - |before|);
      } else {
        var k := i - |before| - |Folder|;
        assert name[k..k + |Folder|] == s[i..i + |Folder|];
        assert OccursAt(name, Folder, k);
      }
    }
  }

  lemma NestedHoldsFolder(s: string, i: int)
    requires OccursAt(s, Nested, i)
    ensures OccursAt(s, Folder, i + 1)
  {
    MarkerOverlaps(1);
    assert s[i + 1..i + 1 + |Folder|] == s[i..i + |Nested|][1..];
  }

  lemma UnderSpelling(owner: string, name: string)
    ensures Under(owner, name) == (if owner == "" then "" else owner + "/") + Folder + name
  {
  }

  lemma FolderIsLast(owner: string, name: string)
    requires PlainName(name)
    ensures LastIndexOf(Under(owner, name), Folder) == if owner == "" then 0 else |owner| + 1
  {
    var before := if owner == "" then "" else owner + "/";
    UnderSpelling(owner, name);
    var s := Under(owner, name);
    assert s[|before|..|before| + |Folder|] == Folder;
    assert OccursAt(s, Folder, |before|);
    NoLaterFolder(before, name, LastIndexOf(s, Folder));
  }

  lemma NestedIsLast(owner: string, name: string)
    requires PlainName(name)
    ensures LastIndexOf(Under(owner, name), Nested) == if owner == "" then -1 else |owner|
  {
    var before := if owner == "" then "" else owner + "/";
    UnderSpelling(owner, name);
    var s := Under(owner, name);
    var last := LastIndexOf(s, Nested);
    if owner != "" {
      MarkerOverlaps(1);
      assert s[|owner|..|owner| + |Nested|] == Nested;
      assert OccursAt(s, Nested, |owner|);
    }
    if last != -1 {
      NestedHoldsFolder(s, last);
      NoLaterFolder(before, name, last + 1);
    }
  }

  /** `ownerOf` undoes `under`, and so does cutting out the name. */
  lemma UnderIsUndone(owner: string, name: string)
    requires PlainName(name)
    ensures OwnerOf(Under(owner, name)) == owner
    ensures NameOf(Under(owner, name)) == name
  {
    NestedIsLast(owner, name);
    FolderIsLast(owner, name);
    UnderSpelling(owner, name);
    if owner != "" {
      assert Under(owner, name)[..|owner|] == owner;
    }
  }

  lemma RenderedIsUndone(l: Location)
    requires l != [] && PlainNames(l)
    ensures OwnerOf(Render(l)) == Render(Owner(l)) && NameOf(Render(l)) == Last(l)
  {
    UnderIsUndone(Render(Owner(l)), Last(l));
  }

  lemma RenderIsEmptyOnlyAtTheRoot(l: Location)
    ensures Render(l) == "" <==> l == []
  {
  }

  lemma OwnerIsPlain(l: Location)
    requires l != [] && PlainNames(l)
    ensures PlainNames(Owner(l)) && l == Owner(l) + [Last(l)]
  {
  }

  /** Two locations spelled alike are one location. */
  lemma {:induction false} RenderIsInjective(a: Location, b: Location)
    requires PlainNames(a) && PlainNames(b) && Render(a) == Render(b)
    ensures a == b
  {
    RenderIsEmptyOnlyAtTheRoot(a);
    RenderIsEmptyOnlyAtTheRoot(b);
    if a != [] {
      RenderedIsUndone(a);
      RenderedIsUndone(b);
      OwnerIsPlain(a);
      OwnerIsPlain(b);
      RenderIsInjective(Owner(a), Owner(b));
    }
  }

  lemma OwnerIsShorter(location: string)
    requires location != ""
    ensures |OwnerOf(location)| < |location|
  {
  }

  ghost predicate Climbs(owners: seq<string>) {
    && owners != [] && owners[|owners| - 1] == ""
    && forall i :: 0 <= i < |owners| - 1 ==> owners[i] != "" && owners[i + 1] == OwnerOf(owners[i])
  }

  /** The climb from `owner` to the root, one folder at a time. */
  method OwnersFrom(owner: string) returns (owners: seq<string>)
    ensures Climbs(owners) && owners[0] == owner
  {
    owners := [owner];
    var at := owner;
    while at != ""
      invariant owners != [] && owners[0] == owner && owners[|owners| - 1] == at
      invariant forall i :: 0 <= i < |owners| - 1 ==> owners[i] != "" && owners[i + 1] == OwnerOf(owners[i])
      decreases |at|
    {
      OwnerIsShorter(at);
      at := OwnerOf(at);
      owners := owners + [at];
    }
  }

  /** The name of every package whose entry runs an install script; the root entry is not one. */
  method AllowedScripts(installs: map<string, bool>) returns (names: set<string>)
    ensures forall n :: n in names <==> exists location :: location in installs && location != "" && installs[location] && NameOf(location) == n
  {
    names := {};
    var left := installs.Keys;
    while left != {}
      invariant left <= installs.Keys
      invariant forall n :: n in names <==> exists location :: location in installs && location !in left
                                              && location != "" && installs[location] && NameOf(location) == n
    {
      var location :| location in left;
      ghost var before := left;
      left := left - {location};
      if location != "" && installs[location] {
        names := names + {NameOf(location)};
      }
      assert forall l :: l !in left <==> l !in before || l == location;
    }
  }

  /** The renderings of `l` and of every prefix of it, longest first. */
  function Upward(l: Location): seq<string> {
    if l == [] then [""] else [Render(l)] + Upward(Owner(l))
  }

  lemma RestClimbs(owners: seq<string>)
    requires Climbs(owners) && owners[0] != ""
    ensures Climbs(owners[1..]) && owners[1..][0] == OwnerOf(owners[0])
  {
    assert |owners| > 1;
    var rest := owners[1..];
    forall i | 0 <= i < |rest| - 1 ensures rest[i] != "" && rest[i + 1] == OwnerOf(rest[i]) {
      assert rest[i] == owners[i + 1];
    }
  }

  /** From a rendered location the climb passes the renderings of its prefixes, and ends. */
  lemma {:induction false} ClimbIsThePrefixes(owners: seq<string>, l: Location)
    requires Climbs(owners) && owners[0] == Render(l) && PlainNames(l)
    ensures owners == Upward(l)
    decreases |l|
  {
    RenderIsEmptyOnlyAtTheRoot(l);
    if l == [] {
      assert |owners| == 1;
    } else {
      RenderedIsUndone(l);
      assert forall n :: n in Owner(l) ==> n in l;
      RestClimbs(owners);
      ClimbIsThePrefixes(owners[1..], Owner(l));
    }
  }
}
