/**
 * The one spelling of a directory: `normaliseDirectory`, against the walk it
 * is meant to be, and the names a document may have inside one.
 */
module Directories {

  // --------------------------------------------------------- splitting on '/'

  /** `s.split('/')`: one piece more than there are separators. */
  function Split(s: string): (pieces: seq<string>)
    ensures pieces != []
  {
    if s == "" then [""]
    else if s[0] == '/' then [""] + Split(s[1..])
    else
      var rest := Split(s[1..]);
      [[s[0]] + rest[0]] + rest[1..]
  }

  /** `pieces.join('/')`. */
  function Join(pieces: seq<string>): string {
    if pieces == [] then ""
    else if |pieces| == 1 then pieces[0]
    else pieces[0] + "/" + Join(pieces[1..])
  }

  predicate IsSegment(piece: string) {
    '/' !in piece
  }

  lemma {:induction false} SplitGivesSegments(s: string)
    ensures forall piece :: piece in Split(s) ==> IsSegment(piece)
  {
    if s != "" {
      SplitGivesSegments(s[1..]);
      assert Split(s[1..])[0] in Split(s[1..]);
      assert forall piece :: piece in Split(s[1..])[1..] ==> piece in Split(s[1..]);
    }
  }

  lemma {:induction false} SplitOfSegment(piece: string)
    requires IsSegment(piece)
    ensures Split(piece) == [piece]
  {
    if piece != "" {
      assert piece[0] in piece && IsSegment(piece[1..]);
      SplitOfSegment(piece[1..]);
      assert [piece[0]] + piece[1..] == piece;
    }
  }

  /** Splitting either side of a separator is splitting both and putting them end to end. */
  lemma {:induction false} SplitAtSeparator(a: string, b: string)
    ensures Split(a + "/" + b) == Split(a) + Split(b)
  {
    var s := a + "/" + b;
    if a == "" {
      assert s[0] == '/' && s[1..] == b;
    } else {
      assert s[0] == a[0] && s[1..] == a[1..] + "/" + b;
      SplitAtSeparator(a[1..], b);
      if a[0] == '/' {
        assert [""] + (Split(a[1..]) + Split(b)) == ([""] + Split(a[1..])) + Split(b);
      } else {
        var rest := Split(a[1..]);
        assert (rest + Split(b))[0] == rest[0] && (rest + Split(b))[1..] == rest[1..] + Split(b);
        assert [[a[0]] + rest[0]] + (rest[1..] + Split(b)) == ([[a[0]] + rest[0]] + rest[1..]) + Split(b);
      }
    }
  }

  /** Splitting undoes joining, for pieces that hold no separator. */
  lemma {:induction false} SplitUndoesJoin(pieces: seq<string>)
    requires pieces != [] && forall piece :: piece in pieces ==> IsSegment(piece)
    ensures Split(Join(pieces)) == pieces
  {
    if |pieces| == 1 {
      assert pieces[0] in pieces;
      SplitOfSegment(pieces[0]);
    } else {
      assert pieces[0] in pieces && forall piece :: piece in pieces[1..] ==> piece in pieces;
      SplitUndoesJoin(pieces[1..]);
      SplitAtSeparator(pieces[0], Join(pieces[1..]));
      SplitOfSegment(pieces[0]);
      assert [pieces[0]] + pieces[1..] == pieces;
    }
  }

  // -------------------------------------------------------------------- the walk

  predicate IsName(piece: string) {
    piece != "" && piece != "." && piece != ".."
  }

  /** Standing in a directory and taking one step. */
  function Enter(at: seq<string>, piece: string): seq<string> {
    if piece == "" || piece == "." then at
    else if piece == ".." then (if at == [] then [] else at[..|at| - 1])
    else at + [piece]
  }

  /** Taking every step in turn. */
  function WalkFrom(at: seq<string>, pieces: seq<string>): seq<string>
    decreases |pieces|
  {
    if pieces == [] then at else WalkFrom(Enter(at, pieces[0]), pieces[1..])
  }

  function Walk(directory: string): seq<string> {
    WalkFrom([], Split(directory))
  }

  function Spelled(at: seq<string>): string {
    "/" + Join(at)
  }

  function Normalised(directory: string): string {
    Spelled(Walk(directory))
  }

  /** The loop: names pushed, `..` popping one, nothing popped off the root. */
  method NormaliseDirectory(directory: string) returns (normal: string)
    ensures normal == Normalised(directory)
  {
    var segments := [];
    var pieces := Split(directory);
    assert pieces[0..] == pieces;
    for i := 0 to |pieces|
      invariant WalkFrom(segments, pieces[i..]) == Walk(directory)
    {
      var segment := pieces[i];
      assert pieces[i..][0] == segment && pieces[i..][1..] == pieces[i + 1..];
      if segment == "" || segment == "." { continue; }
      if segment == ".." {
        if segments != [] { segments := segments[..|segments| - 1]; }
        continue;
      }
      segments := segments + [segment];
    }
    normal := "/" + Join(segments);
  }

  // --------------------------------------------------------------- what it gives

  lemma {:induction false} WalkInTwo(at: seq<string>, a: seq<string>, b: seq<string>)
    ensures WalkFrom(at, a + b) == WalkFrom(WalkFrom(at, a), b)
    decreases |a|
  {
    if a == [] {
      assert a + b == b;
    } else {
      assert (a + b)[0] == a[0] && (a + b)[1..] == a[1..] + b;
      WalkInTwo(Enter(at, a[0]), a[1..], b);
    }
  }

  /** Walking into names only goes down. */
  lemma {:induction false} WalkDown(at: seq<string>, names: seq<string>)
    requires forall name :: name in names ==> IsName(name)
    ensures WalkFrom(at, names) == at + names
    decreases |names|
  {
    if names == [] {
      assert at + names == at;
    } else {
      assert names[0] in names && forall name :: name in names[1..] ==> name in names;
      WalkDown(at + [names[0]], names[1..]);
      assert at + [names[0]] + names[1..] == at + names;
    }
  }

  ghost predicate AllNames(at: seq<string>) {
    forall name :: name in at ==> IsName(name) && IsSegment(name)
  }

  lemma {:induction false} WalkStaysAmongNames(at: seq<string>, pieces: seq<string>)
    requires AllNames(at) && forall piece :: piece in pieces ==> IsSegment(piece)
    ensures AllNames(WalkFrom(at, pieces))
    decreases |pieces|
  {
    if pieces != [] {
      assert pieces[0] in pieces && forall piece :: piece in pieces[1..] ==> piece in pieces;
      WalkStaysAmongNames(Enter(at, pieces[0]), pieces[1..]);
    }
  }

  /** No empty, `.` or `..` segment is left, and no separator inside one. */
  lemma WalkGivesNames(directory: string)
    ensures AllNames(Walk(directory))
  {
    SplitGivesSegments(directory);
    WalkStaysAmongNames([], Split(directory));
  }

  lemma SplitOfSpelled(at: seq<string>)
    requires AllNames(at)
    ensures Split(Spelled(at)) == [""] + if at == [] then [""] else at
  {
    assert Spelled(at) == "" + "/" + Join(at);
    SplitAtSeparator("", Join(at));
    if at != [] { SplitUndoesJoin(at); }
  }

  /** Walking a spelling leads to what it spells. */
  lemma WalkOfSpelled(at: seq<string>)
    requires AllNames(at)
    ensures Walk(Spelled(at)) == at
  {
    SplitOfSpelled(at);
    if at == [] {
      assert WalkFrom([], [""]) == WalkFrom([], []);
      assert ([""] + [""])[1..] == [""];
    } else {
      assert ([""] + at)[1..] == at;
      WalkDown([], at);
      assert [] + at == at;
    }
  }

  /** The spelling is the one spelling: different directories never share it. */
  lemma SpelledIsInjective(a: seq<string>, b: seq<string>)
    requires AllNames(a) && AllNames(b) && Spelled(a) == Spelled(b)
    ensures a == b
  {
    WalkOfSpelled(a);
    WalkOfSpelled(b);
  }

  lemma NormalisingIsIdempotent(directory: string)
    ensures Normalised(Normalised(directory)) == Normalised(directory)
  {
    WalkGivesNames(directory);
    WalkOfSpelled(Walk(directory));
  }

  /** Normalising a prefix first makes no difference. */
  lemma NormalisingAPrefixFirst(a: string, b: string)
    ensures Normalised(a + "/" + b) == Normalised(Normalised(a) + "/" + b)
  {
    SplitAtSeparator(a, b);
    SplitAtSeparator(Normalised(a), b);
    WalkInTwo([], Split(a), Split(b));
    WalkInTwo([], Split(Normalised(a)), Split(b));
    WalkGivesNames(a);
    WalkOfSpelled(Walk(a));
  }

  /** Two spellings are compared equal exactly when they walk to the same place. */
  lemma SameSpellingExactlyWhenSameWalk(a: string, b: string)
    ensures Normalised(a) == Normalised(b) <==> Walk(a) == Walk(b)
  {
    WalkGivesNames(a);
    WalkGivesNames(b);
    if Normalised(a) == Normalised(b) { SpelledIsInjective(Walk(a), Walk(b)); }
  }

  // -------------------------------------------------------------- document names

  const Extensions: seq<string> := [".md", ".txt", ".json", ".csv"]

  predicate EndsWith(s: string, end: string) {
    |end| <= |s| && s[|s| - |end|..] == end
  }

  predicate IsAlphanumeric(c: char) {
    'A' <= c <= 'Z' || 'a' <= c <= 'z' || '0' <= c <= '9'
  }

  /** `^[A-Za-z0-9](?:[A-Za-z0-9._-]*[A-Za-z0-9_-])?$` */
  predicate IsStem(stem: string) {
    && stem != "" && IsAlphanumeric(stem[0])
    && (forall c :: c in stem ==> IsAlphanumeric(c) || c == '.' || c == '_' || c == '-')
    && stem[|stem| - 1] != '.'
  }

  function FirstExtension(name: string, extensions: seq<string>): (found: string)
    requires "" !in extensions
    ensures found == "" || (found in extensions && EndsWith(name, found))
    ensures found == "" ==> forall e :: e in extensions ==> !EndsWith(name, e)
    decreases |extensions|
  {
    if extensions == [] then "" else if EndsWith(name, extensions[0]) then extensions[0] else FirstExtension(name, extensions[1..])
  }

  predicate HasDots(name: string) {
    exists i :: 0 <= i < |name| - 1 && name[i] == '.' && name[i + 1] == '.'
  }

  /** What `docNameSchema` accepts. */
  predicate IsDocName(name: string) {
    var extension := FirstExtension(name, Extensions);
    && 1 <= |name| <= 120
    && extension != ""
    && !HasDots(name)
    && IsStem(name[..|name| - |extension|])
  }

  lemma ExtensionsAreSegments(extension: string)
    requires extension in Extensions
    ensures IsSegment(extension)
  {
  }

  lemma DocNameIsAName(name: string)
    requires IsDocName(name)
    ensures IsName(name) && IsSegment(name)
  {
    var extension := FirstExtension(name, Extensions);
    var stem := name[..|name| - |extension|];
    ExtensionsAreSegments(extension);
    assert name == stem + extension && IsSegment(stem);
    assert name[0] == stem[0];
  }

  lemma EndsWithItsEnd(front: string, end: string, other: string)
    requires EndsWith(front + end, other) && |other| > 0 && |end| > 0
    ensures other[|other| - 1] == end[|end| - 1]
  {
    var name := front + end;
    assert name[|name| - |other|..][|other| - 1] == name[|name| - 1] == end[|end| - 1];
  }

  lemma ExtensionIsFound(stem: string, extension: string)
    requires extension in {".md", ".txt", ".json", ".csv"}
    ensures FirstExtension(stem + extension, Extensions) == extension
  {
    var name := stem + extension;
    assert EndsWith(name, extension);
    var found := FirstExtension(name, Extensions);
    assert extension in Extensions && found in Extensions;
    EndsWithItsEnd(stem, extension, found);
    assert ".md"[2] == 'd' && ".txt"[3] == 't' && ".json"[4] == 'n' && ".csv"[3] == 'v';
  }

  /** Letters, digits, underscores and hyphens, and points between them, no two together; a letter or digit first. */
  ghost predicate IsPlainStem(stem: string) {
    && stem != "" && ('A' <= stem[0] <= 'Z' || 'a' <= stem[0] <= 'z' || '0' <= stem[0] <= '9')
    && (forall i :: 0 <= i < |stem| ==>
         'A' <= stem[i] <= 'Z' || 'a' <= stem[i] <= 'z' || '0' <= stem[i] <= '9' || stem[i] in {'.', '_', '-'})
    && forall i :: 0 <= i < |stem| && stem[i] == '.' ==> i + 1 < |stem| && stem[i + 1] != '.'
  }

  lemma StemsArePlain(stem: string)
    ensures IsStem(stem) && !HasDots(stem) <==> IsPlainStem(stem)
  {
    assert forall i :: 0 <= i < |stem| ==> stem[i] in stem;
  }

  lemma DotsAreInTheStem(stem: string, extension: string)
    requires extension in {".md", ".txt", ".json", ".csv"}
    ensures HasDots(stem + extension) <==> HasDots(stem) || (stem != "" && stem[|stem| - 1] == '.')
  {
    var name := stem + extension;
    assert forall i :: 0 <= i < |name| ==> name[i] == if i < |stem| then stem[i] else extension[i - |stem|];
    if HasDots(stem) {
      var i :| 0 <= i < |stem| - 1 && stem[i] == '.' && stem[i + 1] == '.';
      assert name[i] == '.' && name[i + 1] == '.';
    } else if stem != "" && stem[|stem| - 1] == '.' {
      assert name[|stem| - 1] == '.' && name[|stem| - 1 + 1] == '.';
    }
  }

  /** The documents there are meant to be: a plain stem and one of the four extensions, 120 characters at most. */
  lemma DocNameIsAcceptedExactly(stem: string, extension: string)
    requires extension in {".md", ".txt", ".json", ".csv"}
    ensures IsDocName(stem + extension) <==> IsPlainStem(stem) && |stem| + |extension| <= 120
  {
    ExtensionIsFound(stem, extension);
    assert (stem + extension)[..|stem|] == stem;
    DotsAreInTheStem(stem, extension);
    StemsArePlain(stem);
  }

  /** Anything else a name may end in is refused. */
  lemma OnlyDocuments(name: string)
    requires IsDocName(name)
    ensures exists stem, extension :: extension in {".md", ".txt", ".json", ".csv"} && name == stem + extension
  {
    var extension := FirstExtension(name, Extensions);
    assert extension in {".md", ".txt", ".json", ".csv"} && name == name[..|name| - |extension|] + extension;
  }

  /** A name is directly inside whatever directory it is written after. */
  lemma NameIsDirectlyInside(directory: string, name: string)
    requires IsName(name) && IsSegment(name)
    ensures Walk(directory + "/" + name) == Walk(directory) + [name]
    ensures Normalised(directory + "/" + name) == (if Walk(directory) == [] then "/" else Normalised(directory) + "/") + name
  {
    SplitAtSeparator(directory, name);
    SplitOfSegment(name);
    WalkInTwo([], Split(directory), [name]);
    assert [name][1..] == [];
    JoinOneMore(Walk(directory), name);
  }

  /** A step up undoes a step down, wherever it is taken, and at the root there is nowhere further up. */
  lemma UpUndoesDown(directory: string, name: string)
    requires name != "" && name != "." && name != ".." && '/' !in name
    ensures Normalised(directory + "/" + name + "/..") == Normalised(directory)
    ensures Walk(directory) == [] ==> Normalised(directory + "/..") == "/"
  {
    var down := directory + "/" + name;
    NameIsDirectlyInside(directory, name);
    SplitAtSeparator(down, "..");
    SplitAtSeparator(directory, "..");
    SplitOfSegment("..");
    assert down + "/" + ".." == down + "/..";
    assert directory + "/" + ".." == directory + "/..";
    WalkInTwo([], Split(down), [".."]);
    WalkInTwo([], Split(directory), [".."]);
    assert [".."][1..] == [];
    assert (Walk(directory) + [name])[..|Walk(directory)|] == Walk(directory);
  }

  /** A doubled separator, one at the end and a `.` go nowhere. */
  lemma StayingIsNoStep(directory: string)
    ensures Normalised(directory + "/") == Normalised(directory)
    ensures Normalised(directory + "/.") == Normalised(directory)
  {
    SplitAtSeparator(directory, "");
    SplitAtSeparator(directory, ".");
    SplitOfSegment("");
    SplitOfSegment(".");
    assert directory + "/" + "" == directory + "/" && directory + "/" + "." == directory + "/.";
    WalkInTwo([], Split(directory), [""]);
    WalkInTwo([], Split(directory), ["."]);
    assert [""][1..] == [] && ["."][1..] == [];
  }

  /** Whatever the directory, an accepted document name is directly inside it. */
  lemma DocIsDirectlyInside(directory: string, name: string)
    requires IsDocName(name)
    ensures Walk(directory + "/" + name) == Walk(directory) + [name]
    ensures Normalised(directory + "/" + name) == (if Walk(directory) == [] then "/" else Normalised(directory) + "/") + name
  {
    DocNameIsAName(name);
    NameIsDirectlyInside(directory, name);
  }

  lemma {:induction false} JoinOneMore(at: seq<string>, name: string)
    ensures Join(at + [name]) == if at == [] then name else Join(at) + "/" + name
  {
    if at == [] {
      assert at + [name] == [name];
    } else {
      assert (at + [name])[0] == at[0] && (at + [name])[1..] == at[1..] + [name];
      JoinOneMore(at[1..], name);
      if |at| > 1 {
        assert at[0] + "/" + (Join(at[1..]) + "/" + name) == at[0] + "/" + Join(at[1..]) + "/" + name;
      }
    }
  }
}
