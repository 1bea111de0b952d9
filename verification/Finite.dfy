/** Counting facts about sequences and sets. */
module Finite {

  ghost predicate Distinct<T(!new)>(s: seq<T>) {
    forall i, j :: 0 <= i < j < |s| ==> s[i] != s[j]
  }

  /** A sequence that never repeats itself is no longer than any set it draws from. */
  lemma {:induction false} DistinctFits<T(!new)>(s: seq<T>, pool: set<T>)
    requires Distinct(s)
    requires forall x :: x in s ==> x in pool
    ensures |s| <= |pool|
  {
    if s != [] {
      var front, last := s[..|s| - 1], s[|s| - 1];
      assert last !in front;
      assert forall x :: x in front ==> x in s;
      DistinctFits(front, pool - {last});
    }
  }

  lemma SubsetFits<T>(part: set<T>, whole: set<T>)
    requires part <= whole
    ensures |part| <= |whole|
  {
    if part != {} {
      var x :| x in part;
      SubsetFits(part - {x}, whole - {x});
    }
  }

  /** Every sequence over `alphabet` of at most `length` elements. */
  ghost function SequencesUpTo<T(!new)>(alphabet: set<T>, length: nat): (all: set<seq<T>>)
    ensures forall s :: s in all <==> |s| <= length && forall x :: x in s ==> x in alphabet
  {
    if length == 0 then
      {[]}
    else
      var shorter := SequencesUpTo(alphabet, length - 1);
      var all := shorter + set s, x | s in shorter && x in alphabet :: s + [x];
      assert forall s :: |s| <= length && (forall x :: x in s ==> x in alphabet) ==> s in all by {
        forall s: seq<T> | |s| <= length && (forall x :: x in s ==> x in alphabet)
          ensures s in all
        {
          if |s| == length {
            assert s == s[..|s| - 1] + [s[|s| - 1]];
            assert forall x :: x in s[..|s| - 1] ==> x in s;
            assert s[..|s| - 1] in shorter;
          }
        }
      }
      all
  }
}
