/**
 * The one line an activity shows: `displayableActivityText`, what it keeps of
 * a transcript's text, and why a whole transcript answer fits the socket.
 */
module Activities {
  import opened Outcomes
  import opened Utf16
  import Json

  const Space: CodeUnit := 0x20

  // --------------------------------------------------------------- characters

  /** The tab and the line and page breaks: these become a space. */
  predicate IsLineWhitespace(code: nat) {
    code == 0x09 || 0x0A <= code <= 0x0D
  }

  predicate IsControlOrBidi(code: nat) {
    || code <= 0x1F
    || 0x7F <= code <= 0x9F
    || code == 0x061C
    || code == 0x200E
    || code == 0x200F
    || 0x202A <= code <= 0x202E
    || 0x2066 <= code <= 0x2069
  }

  /** What `trim` takes off an end: JavaScript's white space and line terminators. */
  predicate IsTrimmed(u: CodeUnit) {
    || 0x09 <= u <= 0x0D || u == 0x20 || u == 0xA0 || u == 0x1680 || 0x2000 <= u <= 0x200A
    || u == 0x2028 || u == 0x2029 || u == 0x202F || u == 0x205F || u == 0x3000 || u == 0xFEFF
  }

  /** A unit that moves what is drawn after it, or is no character: C0, DEL and C1, and the marks for direction. */
  predicate IsHidden(u: CodeUnit) {
    || u <= 0x1F || 0x7F <= u <= 0x9F || u in {0x061C, 0x200E, 0x200F}
    || u in {0x202A, 0x202B, 0x202C, 0x202D, 0x202E} || u in {0x2066, 0x2067, 0x2068, 0x2069}
  }

  /** A unit that puts something on the screen: neither hidden nor white space. */
  predicate IsInk(u: CodeUnit) {
    && !IsHidden(u) && u !in {0x20, 0xA0, 0x1680, 0x2028, 0x2029, 0x202F, 0x205F, 0x3000, 0xFEFF} && !(0x2000 <= u <= 0x200A)
  }

  // ------------------------------------------------------------------ the text

  function Drawn(u: CodeUnit): Text {
    if IsLineWhitespace(u) then [Space] else if IsControlOrBidi(u) then [] else [u]
  }

  function Drawable(s: Text): Text {
    if s == [] then [] else Drawn(s[0]) + Drawable(s[1..])
  }

  /** Every run of two or more spaces made one: a space is dropped when another follows it. */
  function Collapsed(s: Text): Text {
    if s == [] then []
    else if s[0] == Space && |s| > 1 && s[1] == Space then Collapsed(s[1..])
    else [s[0]] + Collapsed(s[1..])
  }

  function TrimmedStart(s: Text): Text {
    if s != [] && IsTrimmed(s[0]) then TrimmedStart(s[1..]) else s
  }

  function TrimmedEnd(s: Text): Text {
    if s != [] && IsTrimmed(s[|s| - 1]) then TrimmedEnd(s[..|s| - 1]) else s
  }

  function Displayable(raw: Text): Text {
    TrimmedEnd(TrimmedStart(Collapsed(Drawable(raw))))
  }

  lemma {:induction false} DrawableOfJoin(a: Text, b: Text)
    ensures Drawable(a + b) == Drawable(a) + Drawable(b)
  {
    if a == [] {
      assert a + b == b;
    } else {
      assert (a + b)[0] == a[0] && (a + b)[1..] == a[1..] + b;
      DrawableOfJoin(a[1..], b);
    }
  }

  lemma DrawableOfOne(u: CodeUnit)
    ensures Drawable([u]) == Drawn(u)
  {
    assert [u][1..] == [];
  }

  /** The code point at the head of a text, and the units it takes. */
  function CodePoint(s: Text): nat
    requires s != []
  {
    var first: int := s[0];
    if StartsWithPair(s) then 0x1_0000 + (first - 0xD800) * 0x400 + s[1] - 0xDC00 else first
  }

  function Width(s: Text): (n: nat)
    requires s != []
    ensures 1 <= n <= |s|
  {
    if StartsWithPair(s) then 2 else 1
  }

  /** One character judged by its code point is its units judged one by one. */
  lemma CharacterIsItsUnits(s: Text)
    requires s != []
    ensures Drawable(s[..Width(s)]) ==
            if IsLineWhitespace(CodePoint(s)) then [Space] else if IsControlOrBidi(CodePoint(s)) then [] else s[..Width(s)]
  {
    if StartsWithPair(s) {
      assert s[..2] == [s[0]] + [s[1]];
      DrawableOfJoin([s[0]], [s[1]]);
      DrawableOfOne(s[0]);
      DrawableOfOne(s[1]);
    } else {
      assert s[..1] == [s[0]];
      DrawableOfOne(s[0]);
    }
  }

  /** The loop over characters, then the runs of spaces, then the ends. */
  method DisplayableActivityText(raw: Text) returns (shown: Text)
    ensures shown == Displayable(raw)
  {
    var drawable := [];
    var at := 0;
    while at < |raw|
      invariant 0 <= at <= |raw| && drawable == Drawable(raw[..at])
    {
      var code, width := CodePoint(raw[at..]), Width(raw[at..]);
      CharacterIsItsUnits(raw[at..]);
      assert raw[..at + width] == raw[..at] + raw[at..][..width];
      DrawableOfJoin(raw[..at], raw[at..][..width]);
      if IsLineWhitespace(code) {
        drawable := drawable + [Space];
      } else if !IsControlOrBidi(code) {
        drawable := drawable + raw[at..at + width];
      }
      at := at + width;
    }
    assert raw[..at] == raw;
    shown := TrimmedEnd(TrimmedStart(Collapsed(drawable)));
  }

  // ---------------------------------------------------- what it never lengthens

  lemma {:induction false} DrawableIsNoLonger(s: Text)
    ensures |Drawable(s)| <= |s|
  {
    if s != [] { DrawableIsNoLonger(s[1..]); }
  }

  lemma {:induction false} CollapsedIsNoLonger(s: Text)
    ensures |Collapsed(s)| <= |s|
  {
    if s != [] { CollapsedIsNoLonger(s[1..]); }
  }

  /** Trimming cuts a stretch out of the middle. */
  lemma {:induction false} TrimmedStartIsATail(s: Text)
    ensures |TrimmedStart(s)| <= |s| && TrimmedStart(s) == s[|s| - |TrimmedStart(s)|..]
    ensures TrimmedStart(s) != [] ==> !IsTrimmed(TrimmedStart(s)[0])
  {
    if s != [] && IsTrimmed(s[0]) { TrimmedStartIsATail(s[1..]); }
  }

  lemma {:induction false} TrimmedEndIsAHead(s: Text)
    ensures |TrimmedEnd(s)| <= |s| && TrimmedEnd(s) == s[..|TrimmedEnd(s)|]
    ensures TrimmedEnd(s) != [] ==> !IsTrimmed(TrimmedEnd(s)[|TrimmedEnd(s)| - 1])
  {
    if s != [] && IsTrimmed(s[|s| - 1]) { TrimmedEndIsAHead(s[..|s| - 1]); }
  }

  lemma DisplayableIsNoLonger(raw: Text)
    ensures |Displayable(raw)| <= |raw|
  {
    var drawable := Drawable(raw);
    DrawableIsNoLonger(raw);
    CollapsedIsNoLonger(drawable);
    TrimmedStartIsATail(Collapsed(drawable));
    TrimmedEndIsAHead(TrimmedStart(Collapsed(drawable)));
  }

  // ------------------------------------------------------------- what it settles

  ghost predicate AllDrawn(s: Text) {
    forall i :: 0 <= i < |s| ==> !IsHidden(s[i])
  }

  ghost predicate HasNoRuns(s: Text) {
    forall i :: 0 <= i < |s| - 1 ==> s[i] != Space || s[i + 1] != Space
  }

  /** A line with nothing left to take out. */
  ghost predicate IsLine(s: Text) {
    && AllDrawn(s)
    && HasNoRuns(s)
    && (s != [] ==> IsInk(s[0]) && IsInk(s[|s| - 1]))
  }

  lemma {:induction false} DrawableIsDrawn(s: Text)
    ensures AllDrawn(Drawable(s))
  {
    if s != [] { DrawableIsDrawn(s[1..]); }
  }

  /** Collapsing takes out spaces and nothing else, and leaves no two together. */
  lemma {:induction false} CollapsedHasNoRuns(s: Text)
    ensures forall u :: u in Collapsed(s) ==> u in s
    ensures HasNoRuns(Collapsed(s))
    ensures s != [] ==> Collapsed(s) != [] && Collapsed(s)[0] == s[0]
  {
    if s != [] { CollapsedHasNoRuns(s[1..]); }
  }

  lemma {:induction false} NothingToDrop(s: Text)
    requires AllDrawn(s)
    ensures Drawable(s) == s
  {
    if s != [] {
      assert forall i :: 0 <= i < |s[1..]| ==> s[1..][i] == s[i + 1];
      NothingToDrop(s[1..]);
    }
  }

  lemma {:induction false} NothingToCollapse(s: Text)
    requires HasNoRuns(s)
    ensures Collapsed(s) == s
  {
    if s != [] {
      NothingToCollapse(s[1..]);
      assert [s[0]] + s[1..] == s;
    }
  }

  /** A stretch of drawn text without runs is drawn and without runs. */
  lemma StretchIsDrawn(s: Text, from: nat, to: nat)
    requires from <= to <= |s| && AllDrawn(s) && HasNoRuns(s)
    ensures AllDrawn(s[from..to]) && HasNoRuns(s[from..to])
  {
    assert forall i :: 0 <= i < to - from ==> s[from..to][i] == s[from + i];
  }

  lemma CollapsedIsDrawn(raw: Text)
    ensures AllDrawn(Collapsed(Drawable(raw))) && HasNoRuns(Collapsed(Drawable(raw)))
  {
    var collapsed := Collapsed(Drawable(raw));
    DrawableIsDrawn(raw);
    CollapsedHasNoRuns(Drawable(raw));
    assert forall i :: 0 <= i < |collapsed| ==> collapsed[i] in collapsed;
  }

  /** What comes out is a line. */
  lemma DisplayableIsALine(raw: Text)
    ensures IsLine(Displayable(raw))
  {
    var collapsed := Collapsed(Drawable(raw));
    var tail := TrimmedStart(collapsed);
    CollapsedIsDrawn(raw);
    TrimmedStartIsATail(collapsed);
    StretchIsDrawn(collapsed, |collapsed| - |tail|, |collapsed|);
    TrimmedEndIsAHead(tail);
    StretchIsDrawn(tail, 0, |TrimmedEnd(tail)|);
  }

  /** The lines are exactly the texts it leaves alone, so a second pass changes nothing. */
  lemma LinesAreLeftAlone(s: Text)
    ensures IsLine(s) <==> Displayable(s) == s
  {
    if IsLine(s) {
      NothingToDrop(s);
      NothingToCollapse(s);
    }
    DisplayableIsALine(s);
  }

  lemma DisplayingTwiceIsDisplayingOnce(raw: Text)
    ensures Displayable(Displayable(raw)) == Displayable(raw)
  {
    DisplayableIsALine(raw);
    LinesAreLeftAlone(Displayable(raw));
  }

  // ---------------------------------------------------------------- what it keeps

  function Ended(word: Text): seq<Text> {
    if word == [] then [] else [word]
  }

  /** The words of a text, `word` being the one it is in: white space ends one, and what cannot be drawn is not there. */
  function WordsFrom(word: Text, s: Text): seq<Text>
    decreases |s|
  {
    if s == [] then Ended(word)
    else if IsInk(s[0]) then WordsFrom(word + [s[0]], s[1..])
    else if IsTrimmed(s[0]) then Ended(word) + WordsFrom([], s[1..])
    else WordsFrom(word, s[1..])
  }

  function Words(s: Text): seq<Text> {
    WordsFrom([], s)
  }

  lemma {:induction false} DrawableKeepsWords(word: Text, s: Text)
    ensures WordsFrom(word, Drawable(s)) == WordsFrom(word, s)
    decreases |s|
  {
    if s != [] {
      var u, rest := s[0], s[1..];
      DrawableKeepsWords(if IsInk(u) then word + [u] else if IsTrimmed(u) then [] else word, rest);
      if Drawn(u) == [] {
        assert Drawable(s) == Drawable(rest);
      } else {
        assert Drawable(s)[1..] == Drawable(rest);
      }
    }
  }

  lemma {:induction false} CollapsedKeepsWords(word: Text, s: Text)
    ensures WordsFrom(word, Collapsed(s)) == WordsFrom(word, s)
    decreases |s|
  {
    if s != [] {
      var u, rest := s[0], s[1..];
      if u == Space && rest != [] && rest[0] == Space {
        CollapsedKeepsWords(word, rest);
        assert WordsFrom(word, s) == Ended(word) + (Ended([]) + WordsFrom([], rest[1..]));
        assert WordsFrom(word, rest) == Ended(word) + WordsFrom([], rest[1..]);
      } else {
        CollapsedKeepsWords(if IsInk(u) then word + [u] else if IsTrimmed(u) then [] else word, rest);
        assert Collapsed(s)[1..] == Collapsed(rest);
      }
    }
  }

  lemma {:induction false} TrimmedStartKeepsWords(s: Text)
    ensures Words(TrimmedStart(s)) == Words(s)
  {
    if s != [] && IsTrimmed(s[0]) { TrimmedStartKeepsWords(s[1..]); }
  }

  lemma {:induction false} WhiteAtTheEnd(word: Text, s: Text, white: CodeUnit)
    requires IsTrimmed(white)
    ensures WordsFrom(word, s + [white]) == WordsFrom(word, s)
    decreases |s|
  {
    var all := s + [white];
    if s == [] {
      assert all == [white] && all[1..] == [];
      assert Ended(word) + Ended([]) == Ended(word);
    } else {
      var u := s[0];
      assert all[0] == u && all[1..] == s[1..] + [white];
      WhiteAtTheEnd(if IsInk(u) then word + [u] else if IsTrimmed(u) then [] else word, s[1..], white);
    }
  }

  lemma {:induction false} TrimmedEndKeepsWords(s: Text)
    ensures Words(TrimmedEnd(s)) == Words(s)
  {
    if s != [] && IsTrimmed(s[|s| - 1]) {
      TrimmedEndKeepsWords(s[..|s| - 1]);
      assert s == s[..|s| - 1] + [s[|s| - 1]];
      WhiteAtTheEnd([], s[..|s| - 1], s[|s| - 1]);
    }
  }

  /** Every word is kept, whole, apart and in order: only white space, controls and bidi marks go. */
  lemma WordsAreKept(raw: Text)
    ensures Words(Displayable(raw)) == Words(raw)
  {
    DrawableKeepsWords([], raw);
    CollapsedKeepsWords([], Drawable(raw));
    TrimmedStartKeepsWords(Collapsed(Drawable(raw)));
    TrimmedEndKeepsWords(TrimmedStart(Collapsed(Drawable(raw))));
  }

  // --------------------------------------------------------------- an activity

  const TextMaxChars: nat := 200
  const PathMaxChars: nat := 200
  const CountMax: nat := 9_999_999
  const ActivitiesMax: nat := 200

  datatype Activity =
    | Command(text: Text, exitStatus: Option<int>)
    | Edit(path: Text, added: Option<int>, removed: Option<int>)
    | Tests(passed: Option<int>, failed: Option<int>)
    | Narration(text: Text)
    | Approval(text: Text)
    | Plain(text: Text)

  /** The length is judged on what arrived, the emptiness on what is left. */
  function ParseText(raw: Text, max: nat): Option<Text> {
    if |raw| <= max && Displayable(raw) != [] then Some(Displayable(raw)) else None
  }

  predicate Within(n: Option<int>, max: nat) {
    n.Some? ==> 0 <= n.value <= max
  }

  function Parse(a: Activity): Option<Activity> {
    match a
    case Command(text, status) =>
      if ParseText(text, TextMaxChars).None? || !Within(status, 255) then None
      else Some(Command(ParseText(text, TextMaxChars).value, status))
    case Edit(path, added, removed) =>
      if ParseText(path, PathMaxChars).None? || !Within(added, CountMax) || !Within(removed, CountMax) then None
      else Some(Edit(ParseText(path, PathMaxChars).value, added, removed))
    case Tests(passed, failed) => if Within(passed, CountMax) && Within(failed, CountMax) then Some(a) else None
    case Narration(text) => if ParseText(text, TextMaxChars).None? then None else Some(Narration(ParseText(text, TextMaxChars).value))
    case Approval(text) => if ParseText(text, TextMaxChars).None? then None else Some(Approval(ParseText(text, TextMaxChars).value))
    case Plain(text) => if ParseText(text, TextMaxChars).None? then None else Some(Plain(ParseText(text, TextMaxChars).value))
  }

  lemma {:induction false} WordsAreOfInk(word: Text, s: Text)
    ensures WordsFrom(word, s) != [] <==> word != [] || exists u :: u in s && IsInk(u)
    decreases |s|
  {
    if s != [] {
      var u, rest := s[0], s[1..];
      WordsAreOfInk(if IsInk(u) then word + [u] else if IsTrimmed(u) then [] else word, rest);
      assert forall x :: x in s <==> x == u || x in rest;
    }
  }

  /** A string is accepted when no more than 200 units arrived and one of them shows. */
  ghost predicate IsShowable(raw: Text) {
    |raw| <= 200 && exists u :: u in raw && IsInk(u)
  }

  lemma ShowsExactlyItsInk(raw: Text)
    ensures Displayable(raw) != [] <==> exists u :: u in raw && IsInk(u)
  {
    WordsAreKept(raw);
    WordsAreOfInk([], raw);
    WordsAreOfInk([], Displayable(raw));
    DisplayableIsALine(raw);
    if Displayable(raw) != [] { assert Displayable(raw)[0] in Displayable(raw); }
  }

  ghost predicate IsParsable(a: Activity) {
    match a
    case Command(text, status) => IsShowable(text) && (status.Some? ==> 0 <= status.value <= 255)
    case Edit(path, added, removed) =>
      && IsShowable(path)
      && (added.Some? ==> 0 <= added.value <= 9_999_999) && (removed.Some? ==> 0 <= removed.value <= 9_999_999)
    case Tests(passed, failed) =>
      (passed.Some? ==> 0 <= passed.value <= 9_999_999) && (failed.Some? ==> 0 <= failed.value <= 9_999_999)
    case Narration(text) => IsShowable(text)
    case Approval(text) => IsShowable(text)
    case Plain(text) => IsShowable(text)
  }

  /** An activity is accepted exactly within its bounds, and then its kind and numbers are what they were. */
  lemma ParsesExactly(a: Activity)
    ensures Parse(a).Some? <==> IsParsable(a)
    ensures Parse(a).Some? ==>
              match a
              case Command(text, status) => Parse(a).value == Command(Displayable(text), status)
              case Edit(path, added, removed) => Parse(a).value == Edit(Displayable(path), added, removed)
              case Tests(passed, failed) => Parse(a).value == Tests(passed, failed)
              case Narration(text) => Parse(a).value == Narration(Displayable(text))
              case Approval(text) => Parse(a).value == Approval(Displayable(text))
              case Plain(text) => Parse(a).value == Plain(Displayable(text))
  {
    var raw := match a case Edit(path, _, _) => path case Tests(_, _) => [] case _ => a.text;
    ShowsExactlyItsInk(raw);
  }

  /** Parsed again at every hop, an activity never moves. */
  lemma ParsingAgainChangesNothing(a: Activity)
    requires Parse(a).Some?
    ensures Parse(Parse(a).value) == Parse(a)
  {
    var raw := match a case Edit(path, _, _) => path case Tests(_, _) => [] case _ => a.text;
    DisplayingTwiceIsDisplayingOnce(raw);
    DisplayableIsNoLonger(raw);
  }

  /** What a parser hands on: something a parser would hand on again as it is. */
  predicate Accepted(a: Activity) {
    Parse(a) == Some(a)
  }

  // ------------------------------------------------------------------- its size

  /** A piece of the frame spelled in ASCII. */
  type Literal = s: string | forall i :: 0 <= i < |s| ==> s[i] < '\U{80}'

  function Ascii(s: Literal): Text {
    seq(|s|, i requires 0 <= i < |s| => s[i] as int)
  }

  function Digits(n: nat): Text {
    if n < 10 then [0x30 + n] else Digits(n / 10) + [0x30 + n % 10]
  }

  function Power(e: nat): nat {
    if e == 0 then 1 else 10 * Power(e - 1)
  }

  /** A number below 10^e takes at most `e` bytes. */
  lemma {:induction false} SizeOfDigits(n: nat, e: nat)
    requires e > 0 && n < Power(e)
    ensures Utf8Size(Digits(n)) <= e
    decreases e
  {
    Json.SizeOfAscii([0x30 + n % 10]);
    if n >= 10 {
      assert Power(1) == 10 * Power(0);
      SizeOfDigits(n / 10, e - 1);
      Json.SizeOfJoin(Digits(n / 10), [0x30 + n % 10]);
    }
  }

  /** A number of exactly `e` digits takes exactly that. */
  lemma {:induction false} SizeOfAllDigits(n: nat, e: nat)
    requires e > 0 && n < Power(e) && (e > 1 ==> Power(e - 1) <= n)
    ensures Utf8Size(Digits(n)) == e
    decreases e
  {
    Json.SizeOfAscii([0x30 + n % 10]);
    assert Power(1) == 10 * Power(0);
    if e > 1 {
      assert Power(e - 1) == 10 * Power(e - 2);
      PowersArePositive(e - 2);
      SizeOfAllDigits(n / 10, e - 1);
      Json.SizeOfJoin(Digits(n / 10), [0x30 + n % 10]);
    }
  }

  lemma {:induction false} PowersArePositive(e: nat)
    ensures Power(e) > 0
  {
    if e > 0 { PowersArePositive(e - 1); }
  }

  lemma SizeOfLiteral(s: Literal)
    ensures Utf8Size(Ascii(s)) == |s|
  {
    Json.SizeOfAscii(Ascii(s));
  }

  /** `,"key":n`, or nothing when there is no number. */
  function Counted(key: Literal, n: Option<int>): Text
    requires n.Some? ==> n.value >= 0
  {
    if n.None? then [] else Ascii(",\"") + Ascii(key) + Ascii("\":") + Digits(n.value)
  }

  lemma SizeOfCounted(key: Literal, n: Option<int>, e: nat)
    requires e > 0 && (n.Some? ==> 0 <= n.value < Power(e))
    ensures Utf8Size(Counted(key, n)) <= 4 + |key| + e
  {
    if n.Some? {
      SizeOfLiteral(",\"");
      SizeOfLiteral(key);
      SizeOfLiteral("\":");
      SizeOfDigits(n.value, e);
      Json.SizeOfJoin(Ascii(",\""), Ascii(key));
      Json.SizeOfJoin(Ascii(",\"") + Ascii(key), Ascii("\":"));
      Json.SizeOfJoin(Ascii(",\"") + Ascii(key) + Ascii("\":"), Digits(n.value));
    }
  }

  /** `{"kind":"kind","key":"shown"`. */
  function Labelled(kind: Literal, key: Literal, shown: Text): Text {
    Ascii("{\"kind\":\"") + Ascii(kind) + Ascii("\",\"") + Ascii(key) + Ascii("\":") + Json.Encode(shown)
  }

  lemma SizeOfLabelled(kind: Literal, key: Literal, shown: Text)
    ensures Utf8Size(Labelled(kind, key, shown)) <= 16 + |kind| + |key| + 6 * |shown|
  {
    SizeOfLiteral("{\"kind\":\"");
    SizeOfLiteral(kind);
    SizeOfLiteral("\",\"");
    SizeOfLiteral(key);
    SizeOfLiteral("\":");
    Json.SizeOfEncoded(shown);
    var a, b, c, d := Ascii("{\"kind\":\""), Ascii(kind), Ascii("\",\""), Ascii(key);
    Json.SizeOfJoin(a, b);
    Json.SizeOfJoin(a + b, c);
    Json.SizeOfJoin(a + b + c, d);
    Json.SizeOfJoin(a + b + c + d, Ascii("\":"));
    Json.SizeOfJoin(a + b + c + d + Ascii("\":"), Json.Encode(shown));
  }

  /** The bounds an accepted activity keeps. */
  predicate Bounded(a: Activity) {
    match a
    case Command(text, status) => |text| <= TextMaxChars && Within(status, 255)
    case Edit(path, added, removed) => |path| <= PathMaxChars && Within(added, CountMax) && Within(removed, CountMax)
    case Tests(passed, failed) => Within(passed, CountMax) && Within(failed, CountMax)
    case _ => |a.text| <= TextMaxChars
  }

  lemma AcceptedIsBounded(a: Activity)
    requires Accepted(a)
    ensures Bounded(a)
  {
  }

  function EncodedCommand(text: Text, status: Option<int>): Text
    requires Within(status, 255)
  {
    Labelled("command", "text", text) + Counted("exitStatus", status) + Ascii("}")
  }

  function EncodedEdit(path: Text, added: Option<int>, removed: Option<int>): Text
    requires Within(added, CountMax) && Within(removed, CountMax)
  {
    Labelled("edit", "path", path) + Counted("added", added) + (Counted("removed", removed) + Ascii("}"))
  }

  function EncodedTests(passed: Option<int>, failed: Option<int>): Text
    requires Within(passed, CountMax) && Within(failed, CountMax)
  {
    Ascii("{\"kind\":\"tests\"") + Counted("passed", passed) + (Counted("failed", failed) + Ascii("}"))
  }

  function EncodedLine(kind: Literal, text: Text): Text {
    Labelled(kind, "text", text) + Ascii("}")
  }

  /** `JSON.stringify` of an activity. */
  function Encoded(a: Activity): Text
    requires Bounded(a)
  {
    match a
    case Command(text, status) => EncodedCommand(text, status)
    case Edit(path, added, removed) => EncodedEdit(path, added, removed)
    case Tests(passed, failed) => EncodedTests(passed, failed)
    case Narration(text) => EncodedLine("narration", text)
    case Approval(text) => EncodedLine("approval", text)
    case Plain(text) => EncodedLine("plain", text)
  }

  lemma Powers()
    ensures Power(3) == 1_000 && Power(7) == 10_000_000
  {
    assert Power(1) == 10;
    assert Power(5) == 100_000 && Power(3) == 1_000;
  }

  lemma SizeOfThree(a: Text, b: Text, c: Text)
    ensures Utf8Size(a + b + c) <= Utf8Size(a) + Utf8Size(b) + Utf8Size(c)
  {
    Json.SizeOfJoin(a, b);
    Json.SizeOfJoin(a + b, c);
  }

  lemma SizeOfCommand(text: Text, status: Option<int>)
    requires Within(status, 255)
    ensures Utf8Size(EncodedCommand(text, status)) <= 45 + 6 * |text|
  {
    Powers();
    SizeOfLabelled("command", "text", text);
    SizeOfCounted("exitStatus", status, 3);
    SizeOfLiteral("}");
    SizeOfThree(Labelled("command", "text", text), Counted("exitStatus", status), Ascii("}"));
  }

  lemma SizeOfEdit(path: Text, added: Option<int>, removed: Option<int>)
    requires Within(added, CountMax) && Within(removed, CountMax)
    ensures Utf8Size(EncodedEdit(path, added, removed)) <= 59 + 6 * |path|
  {
    Powers();
    SizeOfLabelled("edit", "path", path);
    SizeOfCounted("added", added, 7);
    SizeOfCounted("removed", removed, 7);
    SizeOfLiteral("}");
    Json.SizeOfJoin(Counted("removed", removed), Ascii("}"));
    SizeOfThree(Labelled("edit", "path", path), Counted("added", added), Counted("removed", removed) + Ascii("}"));
  }

  lemma SizeOfTests(passed: Option<int>, failed: Option<int>)
    requires Within(passed, CountMax) && Within(failed, CountMax)
    ensures Utf8Size(EncodedTests(passed, failed)) <= 50
  {
    Powers();
    SizeOfLiteral("{\"kind\":\"tests\"");
    SizeOfCounted("passed", passed, 7);
    SizeOfCounted("failed", failed, 7);
    SizeOfLiteral("}");
    Json.SizeOfJoin(Counted("failed", failed), Ascii("}"));
    SizeOfThree(Ascii("{\"kind\":\"tests\""), Counted("passed", passed), Counted("failed", failed) + Ascii("}"));
  }

  lemma SizeOfLine(kind: Literal, text: Text)
    ensures Utf8Size(EncodedLine(kind, text)) <= 21 + |kind| + 6 * |text|
  {
    SizeOfLabelled(kind, "text", text);
    SizeOfLiteral("}");
    Json.SizeOfJoin(Labelled(kind, "text", text), Ascii("}"));
  }

  /** The widest activity is an edit, and it takes at most 1,259 bytes: inside the 1,300 it is charged. */
  lemma SizeOfActivity(a: Activity)
    requires Bounded(a)
    ensures Utf8Size(Encoded(a)) <= 1_259 <= 1_300
  {
    match a
    case Command(text, status) => SizeOfCommand(text, status);
    case Edit(path, added, removed) => SizeOfEdit(path, added, removed);
    case Tests(passed, failed) => SizeOfTests(passed, failed);
    case Narration(text) => SizeOfLine("narration", text);
    case Approval(text) => SizeOfLine("approval", text);
    case Plain(text) => SizeOfLine("plain", text);
  }

  /** Two hundred halves of pairs, each written in six bytes. */
  function Lone(n: nat): Text {
    seq(n, i => 0xD800)
  }

  lemma {:induction false} BodyOfLone(n: nat)
    ensures Utf8Size(Json.Body(Lone(n))) == 6 * n
  {
    if n > 0 {
      BodyOfLone(n - 1);
      assert Lone(n)[1..] == Lone(n - 1) && Lone(n)[0] == 0xD800;
      Json.EscapesOnlyWhatItMust(0xD800);
      Json.SizeOfAscii(Json.Escaped(0xD800));
      Json.SizeOfJoin(Json.Escaped(0xD800), Json.Body(Lone(n - 1)));
    }
  }

  lemma SizeOfEncodedLone(n: nat)
    ensures Utf8Size(Json.Encode(Lone(n))) == 6 * n + 2
  {
    BodyOfLone(n);
    Json.SizeOfAscii([Json.Quote]);
    Json.SizeOfJoin([Json.Quote], Json.Body(Lone(n)));
    Json.SizeOfJoin([Json.Quote] + Json.Body(Lone(n)), [Json.Quote]);
  }

  /** Sizes add up wherever one side of the seam is ASCII. */
  lemma SizesAdd(a: Text, b: Text)
    requires (a != [] && a[|a| - 1] < 0x80) || (b != [] && b[0] < 0x80)
    ensures Utf8Size(a + b) == Utf8Size(a) + Utf8Size(b)
  {
    Json.SizeOfJoin(a, b);
  }

  lemma SizeOfCountedExactly(key: Literal, n: nat, e: nat)
    requires key != "" && e > 0 && n < Power(e) && (e > 1 ==> Power(e - 1) <= n)
    ensures Utf8Size(Counted(key, Some(n))) == 4 + |key| + e && Counted(key, Some(n))[0] < 0x80
  {
    var a, b, c := Ascii(",\""), Ascii(key), Ascii("\":");
    SizeOfLiteral(",\"");
    SizeOfLiteral(key);
    SizeOfLiteral("\":");
    SizeOfAllDigits(n, e);
    SizesAdd(a, b);
    SizesAdd(a + b, c);
    SizesAdd(a + b + c, Digits(n));
  }

  lemma SizeOfLabelledExactly(kind: Literal, key: Literal, shown: Text)
    requires kind != "" && key != ""
    ensures Utf8Size(Labelled(kind, key, shown)) == 14 + |kind| + |key| + Utf8Size(Json.Encode(shown))
  {
    var a, b, c, d, e := Ascii("{\"kind\":\""), Ascii(kind), Ascii("\",\""), Ascii(key), Ascii("\":");
    SizeOfLiteral("{\"kind\":\"");
    SizeOfLiteral(kind);
    SizeOfLiteral("\",\"");
    SizeOfLiteral(key);
    SizeOfLiteral("\":");
    SizesAdd(a, b);
    SizesAdd(a + b, c);
    SizesAdd(a + b + c, d);
    SizesAdd(a + b + c + d, e);
    SizesAdd(a + b + c + d + e, Json.Encode(shown));
  }

  lemma LoneIsALine(n: nat)
    ensures Displayable(Lone(n)) == Lone(n)
  {
    LinesAreLeftAlone(Lone(n));
  }

  lemma SevenDigits(n: nat)
    requires 1_000_000 <= n <= 9_999_999
    ensures n < Power(7) && Power(6) <= n
  {
    Powers();
    assert Power(7) == 10 * Power(6);
  }

  /** `,"added":n` and `,"removed":n}` with seven digits each. */
  lemma SizeOfWideCounts(n: nat)
    requires 1_000_000 <= n <= 9_999_999
    ensures var added, rest := Counted("added", Some(n)), Counted("removed", Some(n)) + Ascii("}");
            && Utf8Size(added) == 16 && added != [] && added[0] < 0x80
            && Utf8Size(rest) == 19 && rest != [] && rest[0] < 0x80
  {
    SevenDigits(n);
    SizeOfCountedExactly("added", n, 7);
    SizeOfCountedExactly("removed", n, 7);
    SizeOfLiteral("}");
    SizesAdd(Counted("removed", Some(n)), Ascii("}"));
  }

  lemma SizeOfWideLabel(path: Text, added: Text, rest: Text)
    requires added != [] && added[0] < 0x80 && Utf8Size(added) == 16
    requires rest != [] && rest[0] < 0x80 && Utf8Size(rest) == 19
    ensures Utf8Size(Labelled("edit", "path", path) + added + rest) == 57 + Utf8Size(Json.Encode(path))
  {
    var front := Labelled("edit", "path", path);
    SizeOfLabelledExactly("edit", "path", path);
    SizesAdd(front, added);
    SizesAdd(front + added, rest);
  }

  /** An edit with two counts of seven digits: the 57 bytes around what is shown. */
  lemma SizeOfWideEdit(path: Text, n: nat)
    requires 1_000_000 <= n <= 9_999_999
    ensures Utf8Size(EncodedEdit(path, Some(n), Some(n))) == 57 + Utf8Size(Json.Encode(path))
  {
    SizeOfWideCounts(n);
    SizeOfWideLabel(path, Counted("added", Some(n)), Counted("removed", Some(n)) + Ascii("}"));
  }

  /** The bound is met: an edit of 200 halves of pairs, with two counts of seven digits. */
  lemma TheWidestActivity()
    ensures var a := Edit(Lone(200), Some(9_999_999), Some(9_999_999));
            Accepted(a) && Bounded(a) && Utf8Size(Encoded(a)) == 1_259
  {
    LoneIsALine(200);
    SizeOfEncodedLone(200);
    SizeOfWideEdit(Lone(200), 9_999_999);
  }

  function Listed(activities: seq<Activity>): Text
    requires forall a :: a in activities ==> Bounded(a)
  {
    if activities == [] then []
    else if |activities| == 1 then Encoded(activities[0])
    else Encoded(activities[0]) + Ascii(",") + Listed(activities[1..])
  }

  lemma {:induction false} SizeOfListed(activities: seq<Activity>)
    requires forall a :: a in activities ==> Bounded(a)
    ensures Utf8Size(Listed(activities)) <= 1_260 * |activities|
  {
    if activities != [] {
      SizeOfActivity(activities[0]);
      SizeOfListed(activities[1..]);
      SizeOfLiteral(",");
      SizeOfThree(Encoded(activities[0]), Ascii(","), Listed(activities[1..]));
    }
  }

  const MaxSafeInteger: nat := 9_007_199_254_740_991

  function FrameType(): Text {
    Ascii("{\"type\":\"session-") + Ascii("transcript-read\",\"replyTo\":")
  }

  function FrameHead(replyTo: nat): Text {
    FrameType() + Digits(replyTo) + Ascii(",\"activities\":[")
  }

  function FrameTail(olderExist: bool): Text {
    Ascii("],\"olderExist\":") + (if olderExist then Ascii("true}") else Ascii("false}"))
  }

  /** The whole answer to a transcript request. */
  function TranscriptFrame(replyTo: nat, activities: seq<Activity>, olderExist: bool): Text
    requires forall a :: a in activities ==> Bounded(a)
  {
    FrameHead(replyTo) + Listed(activities) + FrameTail(olderExist)
  }

  const SocketLimit: nat := 1_000_000

  lemma SafeIntegersAreShort(n: nat)
    requires n <= MaxSafeInteger
    ensures n < Power(16)
  {
    Powers();
    assert Power(9) == 1_000_000_000;
    assert Power(11) == 100_000_000_000;
    assert Power(13) == 10_000_000_000_000;
    assert Power(15) == 1_000_000_000_000_000;
  }

  lemma SizeOfFrameType()
    ensures Utf8Size(FrameType()) <= 44
  {
    SizeOfLiteral("{\"type\":\"session-");
    SizeOfLiteral("transcript-read\",\"replyTo\":");
    Json.SizeOfJoin(Ascii("{\"type\":\"session-"), Ascii("transcript-read\",\"replyTo\":"));
  }

  lemma SizeOfReplyTo(head: Text, replyTo: nat)
    requires replyTo <= MaxSafeInteger
    ensures Utf8Size(head + Digits(replyTo) + Ascii(",\"activities\":[")) <= Utf8Size(head) + 31
  {
    SizeOfLiteral(",\"activities\":[");
    SafeIntegersAreShort(replyTo);
    SizeOfDigits(replyTo, 16);
    SizeOfThree(head, Digits(replyTo), Ascii(",\"activities\":["));
  }

  lemma SizeOfFrameHead(replyTo: nat)
    requires replyTo <= MaxSafeInteger
    ensures Utf8Size(FrameHead(replyTo)) <= 75
  {
    SizeOfFrameType();
    SizeOfReplyTo(FrameType(), replyTo);
  }

  lemma SizeOfFrameTail(olderExist: bool)
    ensures Utf8Size(FrameTail(olderExist)) <= 25
  {
    SizeOfLiteral("],\"olderExist\":");
    SizeOfLiteral("true}");
    SizeOfLiteral("false}");
    Json.SizeOfJoin(Ascii("],\"olderExist\":"), if olderExist then Ascii("true}") else Ascii("false}"));
  }

  /** Whatever it holds, the answer takes about a quarter of what the socket allows one frame. */
  lemma TranscriptFits(replyTo: nat, activities: seq<Activity>, olderExist: bool)
    requires 0 < replyTo <= MaxSafeInteger
    requires |activities| <= ActivitiesMax && forall a :: a in activities ==> Accepted(a)
    ensures forall a :: a in activities ==> Bounded(a)
    ensures Utf8Size(TranscriptFrame(replyTo, activities, olderExist)) <= 252_100 < SocketLimit
  {
    forall a | a in activities ensures Bounded(a) { AcceptedIsBounded(a); }
    SizeOfFrameHead(replyTo);
    SizeOfListed(activities);
    SizeOfFrameTail(olderExist);
    SizeOfThree(FrameHead(replyTo), Listed(activities), FrameTail(olderExist));
  }
}
