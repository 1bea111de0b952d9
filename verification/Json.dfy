/**
 * JSON strings as `JSON.stringify` writes them (the escapes of section 7 of
 * RFC 8259, a lone surrogate escaped rather than written), and a reader that
 * takes them back.
 */
module Json {
  import opened Outcomes
  import opened Utf16

  const Quote: CodeUnit := 0x22
  const Backslash: CodeUnit := 0x5C

  function HexDigit(n: nat): CodeUnit
    requires n < 16
  {
    if n < 10 then 0x30 + n else 0x61 + n - 10
  }

  function HexValue(u: CodeUnit): Option<nat> {
    if 0x30 <= u <= 0x39 then Some(u - 0x30)
    else if 0x61 <= u <= 0x66 then Some(u - 0x61 + 10)
    else if 0x41 <= u <= 0x46 then Some(u - 0x41 + 10)
    else None
  }

  /** The letter a two-character escape uses, where there is one. */
  function ShortEscape(u: CodeUnit): Option<CodeUnit> {
    match u
    case 0x08 => Some(0x62)
    case 0x09 => Some(0x74)
    case 0x0A => Some(0x6E)
    case 0x0C => Some(0x66)
    case 0x0D => Some(0x72)
    case 0x22 => Some(0x22)
    case 0x5C => Some(0x5C)
    case _ => None
  }

  /** What an escape letter stands for to a reader. */
  function Unescape(letter: CodeUnit): Option<CodeUnit> {
    match letter
    case 0x62 => Some(0x08)
    case 0x74 => Some(0x09)
    case 0x6E => Some(0x0A)
    case 0x66 => Some(0x0C)
    case 0x72 => Some(0x0D)
    case 0x22 => Some(0x22)
    case 0x5C => Some(0x5C)
    case 0x2F => Some(0x2F)
    case _ => None
  }

  /** One unit outside a surrogate pair. */
  function Escaped(u: CodeUnit): Text {
    if ShortEscape(u).Some? then [Backslash, ShortEscape(u).value]
    else if u < 0x20 || IsHigh(u) || IsLow(u) then
      [Backslash, 0x75, HexDigit(u / 4096), HexDigit(u / 256 % 16), HexDigit(u / 16 % 16), HexDigit(u % 16)]
    else [u]
  }

  function Body(s: Text): Text {
    if s == [] then []
    else if StartsWithPair(s) then [s[0], s[1]] + Body(s[2..])
    else Escaped(s[0]) + Body(s[1..])
  }

  /** `JSON.stringify` of a string. */
  function Encode(s: Text): Text {
    [Quote] + Body(s) + [Quote]
  }

  // ------------------------------------------------------------------ reading

  function HexUnit(t: Text): Option<CodeUnit>
    requires |t| >= 4
  {
    var a, b, c, d := HexValue(t[0]), HexValue(t[1]), HexValue(t[2]), HexValue(t[3]);
    if a.None? || b.None? || c.None? || d.None? || a.value > 15 || b.value > 15 || c.value > 15 || d.value > 15 then None
    else Some(a.value * 4096 + b.value * 256 + c.value * 16 + d.value)
  }

  datatype Scanned = Scanned(value: Text, rest: Text)

  function Prepend(u: CodeUnit, s: Option<Scanned>): Option<Scanned> {
    if s.None? then None else Some(Scanned([u] + s.value.value, s.value.rest))
  }

  /** Reads a string from just after its opening quote to just after its closing one. */
  function Scan(t: Text): Option<Scanned> {
    if t == [] then None
    else if t[0] == Quote then Some(Scanned([], t[1..]))
    else if t[0] != Backslash then Prepend(t[0], Scan(t[1..]))
    else if |t| < 2 then None
    else if t[1] != 0x75 then
      if Unescape(t[1]).None? then None else Prepend(Unescape(t[1]).value, Scan(t[2..]))
    else if |t| < 6 || HexUnit(t[2..6]).None? then None
    else Prepend(HexUnit(t[2..6]).value, Scan(t[6..]))
  }

  lemma HexRoundTrip(u: CodeUnit)
    ensures HexUnit([HexDigit(u / 4096), HexDigit(u / 256 % 16), HexDigit(u / 16 % 16), HexDigit(u % 16)]) == Some(u)
  {
    var a, b, c, d := u / 4096, u / 256 % 16, u / 16 % 16, u % 16;
    assert HexValue(HexDigit(a)) == Some(a) && HexValue(HexDigit(b)) == Some(b);
    assert HexValue(HexDigit(c)) == Some(c) && HexValue(HexDigit(d)) == Some(d);
    assert u / 16 == u / 256 * 16 + c && u / 256 == a * 16 + b && u == u / 16 * 16 + d;
  }

  lemma PlainIsRead(u: CodeUnit, rest: Text)
    requires u != Quote && u != Backslash
    ensures Scan([u] + rest) == Prepend(u, Scan(rest))
  {
    var t := [u] + rest;
    assert t[0] == u && t[1..] == rest;
  }

  lemma ShortIsRead(u: CodeUnit, rest: Text)
    requires ShortEscape(u).Some?
    ensures Scan([Backslash, ShortEscape(u).value] + rest) == Prepend(u, Scan(rest))
  {
    var t := [Backslash, ShortEscape(u).value] + rest;
    assert t[0] == Backslash && t[1] == ShortEscape(u).value && t[2..] == rest;
    assert Unescape(ShortEscape(u).value) == Some(u);
  }

  lemma HexIsRead(u: CodeUnit, hex: Text, rest: Text)
    requires |hex| == 4 && HexUnit(hex) == Some(u)
    ensures Scan([Backslash, 0x75] + hex + rest) == Prepend(u, Scan(rest))
  {
    var t := [Backslash, 0x75] + hex + rest;
    assert t[0] == Backslash && t[1] == 0x75 && t[2..6] == hex && t[6..] == rest;
  }

  lemma EscapedIsRead(u: CodeUnit, rest: Text)
    ensures Scan(Escaped(u) + rest) == Prepend(u, Scan(rest))
  {
    if ShortEscape(u).Some? {
      ShortIsRead(u, rest);
    } else if u < 0x20 || IsHigh(u) || IsLow(u) {
      var hex := [HexDigit(u / 4096), HexDigit(u / 256 % 16), HexDigit(u / 16 % 16), HexDigit(u % 16)];
      HexRoundTrip(u);
      HexIsRead(u, hex, rest);
      assert Escaped(u) == [Backslash, 0x75] + hex;
    } else {
      PlainIsRead(u, rest);
    }
  }

  lemma PairIsRead(a: CodeUnit, b: CodeUnit, tail: Text)
    requires IsHigh(a) && IsLow(b)
    ensures Scan([a, b] + tail) == Prepend(a, Prepend(b, Scan(tail)))
  {
    assert [a, b] + tail == [a] + ([b] + tail);
    PlainIsRead(a, [b] + tail);
    PlainIsRead(b, tail);
  }

  lemma Regroup(a: Text, b: Text, c: Text, d: Text)
    ensures a + b + c + d == a + (b + c + d)
  {
  }

  lemma FrontAndBack(s: Text)
    ensures s != [] ==> [s[0]] + s[1..] == s
    ensures |s| >= 2 ==> [s[0]] + ([s[1]] + s[2..]) == s
  {
  }

  /** Reading what was written gives the string back, whatever it holds and whatever follows. */
  lemma {:induction false} ScanUndoesBody(s: Text, rest: Text)
    ensures Scan(Body(s) + [Quote] + rest) == Some(Scanned(s, rest))
  {
    FrontAndBack(s);
    if s == [] {
      var t := [Quote] + rest;
      assert [] + [Quote] + rest == t && t[0] == Quote && t[1..] == rest;
    } else if StartsWithPair(s) {
      ScanUndoesBody(s[2..], rest);
      Regroup([s[0], s[1]], Body(s[2..]), [Quote], rest);
      PairIsRead(s[0], s[1], Body(s[2..]) + [Quote] + rest);
    } else {
      ScanUndoesBody(s[1..], rest);
      Regroup(Escaped(s[0]), Body(s[1..]), [Quote], rest);
      EscapedIsRead(s[0], Body(s[1..]) + [Quote] + rest);
    }
  }

  /** Two characters for the seven short escapes, six for other controls and lone surrogates, and else the unit itself. */
  lemma EscapesOnlyWhatItMust(u: CodeUnit)
    ensures |Escaped(u)| == 2 <==> u in {0x08, 0x09, 0x0A, 0x0C, 0x0D, 0x22, 0x5C}
    ensures |Escaped(u)| == 6 <==> u !in {0x08, 0x09, 0x0A, 0x0C, 0x0D} && (u <= 0x1F || 0xD800 <= u <= 0xDFFF)
    ensures |Escaped(u)| !in {2, 6} ==> Escaped(u) == [u]
  {
  }

  /** Text with nothing to escape is written between two quotes and otherwise as it is. */
  lemma {:induction false} PlainIsWrittenAsItself(s: Text)
    requires forall u :: u in s ==> 0x20 <= u && u != 0x22 && u != 0x5C && !(0xD800 <= u <= 0xDFFF)
    ensures Body(s) == s && Encode(s) == [0x22] + s + [0x22]
  {
    if s != [] {
      assert s[0] in s && forall u :: u in s[1..] ==> u in s;
      PlainIsWrittenAsItself(s[1..]);
      EscapesOnlyWhatItMust(s[0]);
      FrontAndBack(s);
    }
  }

  // -------------------------------------------------------------------- sizes

  /** A unit on its own, a lone half of a pair counting as U+FFFD. */
  lemma SizeOfUnit(u: CodeUnit)
    ensures Utf8Size([u]) == if u <= 0x7F then 1 else if u <= 0x7FF then 2 else 3
  {
    assert [u][1..] == [];
  }

  /** Sizes add up, except that two halves that become a pair at the seam take four bytes, and not six. */
  lemma {:induction false} SizeOfJoin(a: Text, b: Text)
    ensures Utf8Size(a + b) == Utf8Size(a) + Utf8Size(b) -
            if a != [] && b != [] && 0xD800 <= a[|a| - 1] <= 0xDBFF && 0xDC00 <= b[0] <= 0xDFFF then 2 else 0
    decreases |a|
  {
    if a == [] {
      assert a + b == b;
    } else if StartsWithPair(a) {
      assert (a + b)[2..] == a[2..] + b;
      SizeOfJoin(a[2..], b);
    } else if StartsWithPair(a + b) {
      assert |a| == 1 && (a + b)[2..] == b[1..];
      assert Utf8Size(a) == 3 + Utf8Size(a[1..]);
      assert !StartsWithPair(b);
    } else {
      assert (a + b)[1..] == a[1..] + b;
      SizeOfJoin(a[1..], b);
    }
  }

  lemma {:induction false} SizeOfAscii(s: Text)
    requires forall u :: u in s ==> u < 0x80
    ensures Utf8Size(s) == |s|
  {
    if s != [] {
      assert s[0] in s && forall u :: u in s[1..] ==> u in s;
      SizeOfAscii(s[1..]);
    }
  }

  lemma SizeOfEscaped(u: CodeUnit)
    ensures Utf8Size(Escaped(u)) <= 6
  {
    if |Escaped(u)| > 1 {
      SizeOfAscii(Escaped(u));
    } else {
      assert Escaped(u)[1..] == [];
    }
  }

  /** Six bytes a unit at the worst. */
  lemma {:induction false} SizeOfBody(s: Text)
    ensures Utf8Size(Body(s)) <= 6 * |s|
  {
    if s != [] {
      if StartsWithPair(s) {
        SizeOfBody(s[2..]);
        assert ([s[0], s[1]] + Body(s[2..]))[2..] == Body(s[2..]);
      } else {
        SizeOfBody(s[1..]);
        SizeOfEscaped(s[0]);
        SizeOfJoin(Escaped(s[0]), Body(s[1..]));
      }
    }
  }

  lemma SizeOfEncoded(s: Text)
    ensures Utf8Size(Encode(s)) <= 6 * |s| + 2
  {
    SizeOfBody(s);
    SizeOfAscii([Quote]);
    SizeOfJoin([Quote], Body(s));
    SizeOfJoin([Quote] + Body(s), [Quote]);
  }
}
