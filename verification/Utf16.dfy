/** Strings as sequences of UTF-16 code units, lone surrogates included, and their size in UTF-8. */
module Utf16 {

  type CodeUnit = u: nat | u < 0x1_0000

  type Text = seq<CodeUnit>

  predicate IsHigh(u: CodeUnit) {
    0xD800 <= u <= 0xDBFF
  }

  predicate IsLow(u: CodeUnit) {
    0xDC00 <= u <= 0xDFFF
  }

  predicate StartsWithPair(s: Text) {
    |s| >= 2 && IsHigh(s[0]) && IsLow(s[1])
  }

  /** The bytes one unit outside a pair takes; a lone surrogate is written as U+FFFD. */
  function UnitSize(u: CodeUnit): nat {
    if u < 0x80 then 1 else if u < 0x800 then 2 else 3
  }

  /** `new TextEncoder().encode(s).length`. */
  function Utf8Size(s: Text): nat {
    if s == [] then 0
    else if StartsWithPair(s) then 4 + Utf8Size(s[2..])
    else UnitSize(s[0]) + Utf8Size(s[1..])
  }
}
