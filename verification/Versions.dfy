/**
 * The versions a lockfile writes: `RESOLVED` of the derivation, read once at
 * the edge so that everything behind it works on typed values.
 */
module Versions {

  /** A registry version and its peer context, or text that is neither. */
  datatype Value = Registry(version: string, context: string) | Unpinnable(text: string) {
    function Text(): string {
      match this
      case Registry(version, context) => version + context
      case Unpinnable(text) => text
    }
  }

  predicate IsDigit(c: char) {
    '0' <= c <= '9'
  }

  function DigitsEnd(s: string, i: nat): (end: nat)
    requires i <= |s|
    ensures i <= end <= |s|
    ensures forall j :: i <= j < end ==> IsDigit(s[j])
    ensures end < |s| ==> !IsDigit(s[end])
    decreases |s| - i
  {
    if i < |s| && IsDigit(s[i]) then DigitsEnd(s, i + 1) else i
  }

  /** Where the first parenthesis is, or the length when there is none. */
  function ParenStart(s: string): (start: nat)
    ensures start <= |s|
    ensures forall j :: 0 <= j < start ==> s[j] != '(' && s[j] != ')'
    ensures start < |s| ==> s[start] == '(' || s[start] == ')'
  {
    if s == "" || s[0] == '(' || s[0] == ')' then 0 else 1 + ParenStart(s[1..])
  }

  /** `\d+\.\d+\.\d+` at the start of `s`. */
  predicate StartsWithTriple(s: string) {
    var a := DigitsEnd(s, 0);
    && 0 < a < |s| && s[a] == '.'
    && var b := DigitsEnd(s, a + 1);
       && a + 1 < b < |s| && s[b] == '.'
       && b + 1 < |s| && IsDigit(s[b + 1])
  }

  predicate IsLineTerminator(c: char) {
    c == '\n' || c == '\r' || c == '\U{2028}' || c == '\U{2029}'
  }

  /**
   * `(?:\(.+\))*` over the whole of `s`. Adjacent groups read as one, because
   * the dot takes a parenthesis as readily as anything else on the line.
   */
  predicate IsPeerContext(s: string) {
    s == "" ||
    (|s| >= 3 && s[0] == '(' && s[|s| - 1] == ')' && forall c :: c in s ==> !IsLineTerminator(c))
  }

  /**
   * `^(\d+\.\d+\.\d+[^()]*)((?:\(.+\))*)$` of `text`, with `version` its
   * first group.
   */
  ghost predicate Matches(text: string, version: string, context: string) {
    && text == version + context
    && StartsWithTriple(version)
    && (forall c :: c in version ==> c != '(' && c != ')')
    && IsPeerContext(context)
  }

  function Read(text: string): Value {
    var cut := ParenStart(text);
    if StartsWithTriple(text[..cut]) && IsPeerContext(text[cut..]) then
      Registry(text[..cut], text[cut..])
    else
      Unpinnable(text)
  }

  /** Reading loses nothing, and finds a registry version exactly where there is one. */
  lemma {:induction false} ReadIsTheExpression(text: string)
    ensures Read(text).Text() == text
    ensures Read(text).Registry? ==> Matches(text, Read(text).version, Read(text).context)
    ensures forall version, context :: Matches(text, version, context) ==> Read(text) == Registry(version, context)
  {
    var cut := ParenStart(text);
    assert text == text[..cut] + text[cut..];
    forall version, context | Matches(text, version, context)
      ensures Read(text) == Registry(version, context)
    {
      assert |version| <= cut by {
        assert forall i :: 0 <= i < |version| ==> version[i] in version && text[i] == version[i];
      }
      assert cut <= |version| by {
        if context != "" { assert text[|version|] == '('; }
      }
      assert text[..cut] == version && text[cut..] == context;
    }
  }
}
