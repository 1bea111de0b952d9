/** Strings in the order a sort without a comparator leaves them. */
module Names {

  predicate Less(a: string, b: string) {
    b != "" && (a == "" || a[0] < b[0] || (a[0] == b[0] && Less(a[1..], b[1..])))
  }

  lemma LessIsTotal(a: string, b: string)
    ensures Less(a, b) || Less(b, a) || a == b
    ensures !(Less(a, b) && Less(b, a))
  {
    if a != "" && b != "" && a[0] == b[0] {
      LessIsTotal(a[1..], b[1..]);
      assert a == [a[0]] + a[1..] && b == [b[0]] + b[1..];
    }
  }

  lemma LessIsTransitive(a: string, b: string, c: string)
    requires Less(a, b) && Less(b, c)
    ensures Less(a, c)
  {
    if a != "" && a[0] == b[0] == c[0] {
      LessIsTransitive(a[1..], b[1..], c[1..]);
    }
  }

  predicate IsLeast(least: string, names: set<string>) {
    least in names && forall n :: n in names && n != least ==> Less(least, n)
  }

  lemma LeastExists(names: set<string>)
    requires names != {}
    ensures exists least :: IsLeast(least, names)
  {
    var x :| x in names;
    if names == {x} {
      assert IsLeast(x, names);
    } else {
      var rest := names - {x};
      LeastExists(rest);
      var y :| IsLeast(y, rest);
      LessIsTotal(x, y);
      if Less(x, y) {
        forall n | n in names && n != x ensures Less(x, n) {
          if n != y { LessIsTransitive(x, y, n); }
        }
        assert IsLeast(x, names);
      } else {
        assert IsLeast(y, names);
      }
    }
  }

  lemma LeastIsUnique(names: set<string>)
    ensures forall a, b :: IsLeast(a, names) && IsLeast(b, names) ==> a == b
  {
    forall a, b | IsLeast(a, names) && IsLeast(b, names) ensures a == b {
      LessIsTotal(a, b);
    }
  }

  /** The members of `names`, each once, in increasing order. */
  function Sorted(names: set<string>): (sorted: seq<string>)
    ensures forall n :: n in sorted <==> n in names
    ensures forall i, j :: 0 <= i < j < |sorted| ==> Less(sorted[i], sorted[j]) && sorted[i] != sorted[j]
  {
    if names == {} then
      []
    else
      LeastExists(names);
      LeastIsUnique(names);
      var least :| least in names && IsLeast(least, names);
      [least] + Sorted(names - {least})
  }
}
