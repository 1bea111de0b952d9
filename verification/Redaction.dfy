/**
 * What a log line is made of: `redactSecrets` walking whatever objects a caller
 * handed over, shared and circular ones included.
 */
module Redaction {
  import opened Outcomes

  // --------------------------------------------------------------- secret keys

  const SecretKeys: seq<string> := ["token", "ticket", "password", "secret", "authorization", "cookie", "databaseurl"]

  /** What is left of a character once it is in lower case and only `a-z0-9` is kept. */
  function Normal(c: char): string {
    if 'a' <= c <= 'z' || '0' <= c <= '9' then [c]
    else if 'A' <= c <= 'Z' then [(c as int + 32) as char]
    else if c == '\U{212A}' then "k"
    else if c == '\U{0130}' then "i"
    else ""
  }

  function Normalised(key: string): string {
    if key == "" then "" else Normal(key[0]) + Normalised(key[1..])
  }

  predicate Contains(s: string, part: string) {
    exists i :: 0 <= i <= |s| && part <= s[i..]
  }

  predicate IsSecretKey(key: string) {
    exists i :: 0 <= i < |SecretKeys| && Contains(Normalised(key), SecretKeys[i])
  }

  lemma {:induction false} NormalisedOfJoin(a: string, b: string)
    ensures Normalised(a + b) == Normalised(a) + Normalised(b)
  {
    if a == "" {
      assert a + b == b;
    } else {
      assert (a + b)[0] == a[0] && (a + b)[1..] == a[1..] + b;
      NormalisedOfJoin(a[1..], b);
    }
  }

  lemma PartIsStillThere(before: string, n: string, after: string, part: string)
    requires Contains(n, part)
    ensures Contains(before + n + after, part)
  {
    var i :| 0 <= i <= |n| && part <= n[i..];
    assert (before + n + after)[|before| + i..] == n[i..] + after;
  }

  /** A secret key stays one whatever is written around it. */
  lemma SecretInsideIsSecret(before: string, key: string, after: string)
    requires IsSecretKey(key)
    ensures IsSecretKey(before + key + after)
  {
    var n := Normalised(key);
    var k :| 0 <= k < |SecretKeys| && Contains(n, SecretKeys[k]);
    NormalisedOfJoin(before, key);
    NormalisedOfJoin(before + key, after);
    PartIsStillThere(Normalised(before), n, Normalised(after), SecretKeys[k]);
  }

  lemma {:induction false} PlainKeysAreNormal(key: string)
    requires forall c :: c in key ==> 'a' <= c <= 'z' || '0' <= c <= '9'
    ensures Normalised(key) == key
  {
    if key != "" {
      assert key[0] in key && forall c :: c in key[1..] ==> c in key;
      PlainKeysAreNormal(key[1..]);
    }
  }

  /** A key in small letters and digits is secret exactly when one of the seven words is in it. */
  lemma PlainKeyIsSecretExactlyWithAWord(key: string)
    requires forall c :: c in key ==> 'a' <= c <= 'z' || '0' <= c <= '9'
    ensures IsSecretKey(key) <==>
              || Contains(key, "token") || Contains(key, "ticket") || Contains(key, "password") || Contains(key, "secret")
              || Contains(key, "authorization") || Contains(key, "cookie") || Contains(key, "databaseurl")
  {
    PlainKeysAreNormal(key);
    assert SecretKeys[0] == "token" && SecretKeys[1] == "ticket" && SecretKeys[2] == "password" && SecretKeys[3] == "secret";
    assert SecretKeys[4] == "authorization" && SecretKeys[5] == "cookie" && SecretKeys[6] == "databaseurl" && |SecretKeys| == 7;
  }

  lemma NormalisedAround(before: string, c: char, after: string)
    ensures Normalised(before + [c] + after) == Normalised(before) + Normal(c) + Normalised(after)
  {
    NormalisedOfJoin(before, [c]);
    NormalisedOfJoin(before + [c], after);
    assert [c][1..] == "";
  }

  /** What a capital is in small letters: two letters outside ASCII come to one inside it. */
  predicate IsCapitalOf(capital: char, small: char) {
    || ('A' <= capital <= 'Z' && small as int == capital as int + 32)
    || (capital == '\U{212A}' && small == 'k')
    || (capital == '\U{0130}' && small == 'i')
  }

  lemma CaseDoesNotMatter(before: string, capital: char, small: char, after: string)
    requires IsCapitalOf(capital, small)
    ensures IsSecretKey(before + [capital] + after) <==> IsSecretKey(before + [small] + after)
  {
    NormalisedAround(before, capital, after);
    NormalisedAround(before, small, after);
  }

  /** Any other character might as well not be there: `server_token` is `servertoken`. */
  lemma PunctuationDoesNotMatter(before: string, c: char, after: string)
    requires !('a' <= c <= 'z' || 'A' <= c <= 'Z' || '0' <= c <= '9') && c != '\U{212A}' && c != '\U{0130}'
    ensures IsSecretKey(before + [c] + after) <==> IsSecretKey(before + after)
  {
    NormalisedAround(before, c, after);
    NormalisedOfJoin(before, after);
    assert Normalised(before) + "" + Normalised(after) == Normalised(before) + Normalised(after);
  }

  // ----------------------------------------------------------------- the objects

  type Ref = nat

  datatype Value = Scalar(text: string) | Object(at: Ref)

  datatype Field = Field(key: string, value: Value)

  /** The own properties of an object: no key twice. */
  type OwnFields = fields: seq<Field> | forall i, j :: 0 <= i < j < |fields| ==> fields[i].key != fields[j].key

  /** A plain object, an array, or anything with a class, which is never opened. */
  datatype Node = Record(fields: OwnFields) | List(items: seq<Value>) | Other

  type Heap = map<Ref, Node>

  function NodeAt(h: Heap, at: Ref): Node {
    if at in h then h[at] else Other
  }

  /** One place a node holds a value, and whether its key hides it. */
  datatype Part = Part(hidden: bool, value: Value)

  function FieldPart(f: Field): Part {
    Part(IsSecretKey(f.key), f.value)
  }

  function Parts(n: Node): seq<Part> {
    match n
    case Record(fields) => seq(|fields|, i requires 0 <= i < |fields| => FieldPart(fields[i]))
    case List(items) => seq(|items|, i requires 0 <= i < |items| => Part(false, items[i]))
    case Other => []
  }

  function Keys(fields: seq<Field>): seq<string> {
    seq(|fields|, i requires 0 <= i < |fields| => fields[i].key)
  }

  // ------------------------------------------------------------------ the line

  /**
   * What is logged: a value as it was, a label in its place, or a fresh object
   * or array. A fresh object has the prototype every object has, unless it was
   * assigned another.
   */
  datatype Shown =
    | Same(value: Value)
    | Redacted
    | TooDeep
    | Circular
    | Copied(keys: seq<string>, parts: seq<Shown>, proto: Option<Shown>)
    | Items(parts: seq<Shown>)

  const Proto := "__proto__"

  /** Where the one key is that an assignment does not make a property of, or the length. */
  function ProtoAt(fields: seq<Field>): (p: nat)
    ensures p <= |fields| && (p < |fields| ==> fields[p].key == Proto)
    ensures forall i :: 0 <= i < p ==> fields[i].key != Proto
  {
    if fields == [] || fields[0].key == Proto then 0 else 1 + ProtoAt(fields[1..])
  }

  predicate HasProto(n: Node) {
    n.Record? && ProtoAt(n.fields) < |n.fields|
  }

  function Without<T>(s: seq<T>, p: nat): seq<T> {
    if p < |s| then s[..p] + s[p + 1..] else s
  }

  /** What assigning `shown` to `__proto__` makes of a prototype: an object does, a string does not. */
  function AsPrototype(shown: Shown): Option<Shown> {
    if shown.Copied? || shown.Items? || (shown.Same? && shown.value.Object?) then Some(shown) else None
  }

  const MaxDepth: nat := 8

  datatype Walked = Walked(shown: Shown, seen: set<Ref>)
  datatype WalkedAll = WalkedAll(shown: seq<Shown>, seen: set<Ref>)

  /** `shown[key] = part`, on a fresh object. */
  function Assigned(shown: Shown, key: string, part: Shown): (after: Shown)
    requires shown.Copied?
    ensures after.Copied?
  {
    if key != Proto then Copied(shown.keys + [key], shown.parts + [part], shown.proto)
    else if AsPrototype(part).Some? then shown.(proto := AsPrototype(part))
    else shown
  }

  /** A fresh object after every assignment, in order. */
  function CopiedFrom(fields: seq<Field>, parts: seq<Shown>): (shown: Shown)
    requires |fields| == |parts|
    ensures shown.Copied?
  {
    if fields == [] then Copied([], [], None)
    else
      var last := |fields| - 1;
      Assigned(CopiedFrom(fields[..last], parts[..last]), fields[last].key, parts[last])
  }

  /** The fresh object or array with these parts assigned in order. */
  function Wrapped(n: Node, parts: seq<Shown>): Shown
    requires |parts| == |Parts(n)|
  {
    match n
    case Record(fields) => CopiedFrom(fields, parts)
    case _ => Items(parts)
  }

  function RedactedValue(h: Heap, v: Value, seen: set<Ref>, depth: nat): Walked
    requires depth <= MaxDepth + 1
    decreases MaxDepth + 1 - depth, 1, 0
  {
    if v.Scalar? then Walked(Same(v), seen)
    else if depth > MaxDepth then Walked(TooDeep, seen)
    else if v.at in seen then Walked(Circular, seen)
    else
      var n := NodeAt(h, v.at);
      if n.Other? then Walked(Same(v), seen + {v.at})
      else
        var all := RedactedAll(h, Parts(n), seen + {v.at}, depth);
        Walked(Wrapped(n, all.shown), all.seen)
  }

  function RedactedPart(h: Heap, part: Part, seen: set<Ref>, depth: nat): Walked
    requires depth <= MaxDepth
    decreases MaxDepth + 1 - depth, 0, 0
  {
    if part.hidden then Walked(Redacted, seen) else RedactedValue(h, part.value, seen, depth + 1)
  }

  /** Every part of a node in order, what one walk saw known to the next. */
  function RedactedAll(h: Heap, parts: seq<Part>, seen: set<Ref>, depth: nat): (w: WalkedAll)
    requires depth <= MaxDepth
    ensures |w.shown| == |parts|
    decreases MaxDepth + 1 - depth, 0, |parts|
  {
    if parts == [] then WalkedAll([], seen)
    else
      var p := |parts| - 1;
      var before := RedactedAll(h, parts[..p], seen, depth);
      var one := RedactedPart(h, parts[p], before.seen, depth);
      WalkedAll(before.shown + [one.shown], one.seen)
  }

  /** `redactSecrets`, the root already seen. */
  function RedactedSecrets(h: Heap, root: Ref): Walked
    requires root in h && h[root].Record?
  {
    var all := RedactedAll(h, Parts(h[root]), {root}, 0);
    Walked(Wrapped(h[root], all.shown), all.seen)
  }

  lemma WalkingOneMore(h: Heap, parts: seq<Part>, i: nat, seen: set<Ref>, depth: nat)
    requires i < |parts| && depth <= MaxDepth
    ensures var before := RedactedAll(h, parts[..i], seen, depth);
            var one := RedactedPart(h, parts[i], before.seen, depth);
            RedactedAll(h, parts[..i + 1], seen, depth) == WalkedAll(before.shown + [one.shown], one.seen)
  {
    assert parts[..i + 1][..i] == parts[..i];
  }

  lemma CopyingOneMore(fields: seq<Field>, i: nat, parts: seq<Shown>, one: Shown)
    requires i < |fields| && |parts| == i
    ensures CopiedFrom(fields[..i + 1], parts + [one]) == Assigned(CopiedFrom(fields[..i], parts), fields[i].key, one)
  {
    var some, all := fields[..i + 1], parts + [one];
    assert |some| - 1 == i && some[i] == fields[i] && all[i] == one;
    assert some[..i] == fields[..i] && all[..i] == parts;
  }

  lemma ProtoAtFront(fields: OwnFields)
    requires fields != []
    ensures var front, p := fields[..|fields| - 1], ProtoAt(fields);
            ProtoAt(front) == if p < |front| then p else |front|
  {
  }

  /** An object with every key but the one at `p`, what was there made its prototype. */
  function AllBut(keys: seq<string>, parts: seq<Shown>, p: nat): Shown {
    Copied(Without(keys, p), Without(parts, p), if p < |parts| then AsPrototype(parts[p]) else None)
  }

  lemma AssigningTheLast(keys: seq<string>, parts: seq<Shown>, p: nat)
    requires |keys| == |parts| > 0 && (keys[|keys| - 1] == Proto <==> p == |keys| - 1)
    ensures var last := |keys| - 1;
            Assigned(AllBut(keys[..last], parts[..last], if p < last then p else last), keys[last], parts[last]) == AllBut(keys, parts, p)
  {
    WithoutLast(keys, p);
    WithoutLast(parts, p);
  }

  /** However the assignments go, every key but `__proto__` is there, once and in order. */
  lemma {:induction false} AssigningMakesAllButProto(fields: OwnFields, parts: seq<Shown>)
    requires |fields| == |parts|
    ensures CopiedFrom(fields, parts) == AllBut(Keys(fields), parts, ProtoAt(fields))
  {
    if fields != [] {
      var last := |fields| - 1;
      AssigningMakesAllButProto(fields[..last], parts[..last]);
      ProtoAtFront(fields);
      assert Keys(fields[..last]) == Keys(fields)[..last];
      AssigningTheLast(Keys(fields), parts, ProtoAt(fields));
    }
  }

  lemma WithoutLast<T>(s: seq<T>, p: nat)
    requires s != []
    ensures var last := |s| - 1;
            && Without(s, p) == (if p == last then s[..last] else Without(s[..last], p) + [s[last]])
            && (p >= last ==> Without(s[..last], last) == s[..last] && Without(s[..last], p) == s[..last])
  {
  }

  lemma WithoutAt<T>(s: seq<T>, p: nat, i: nat)
    requires i < |Without(s, p)|
    ensures i + (if p <= i then 1 else 0) < |s| || p >= |s|
    ensures Without(s, p)[i] == if p < |s| && p <= i then s[i + 1] else s[i]
  {
  }

  /** The walk as it runs, `seen` filled in as it goes. */
  class Redactor {
    const heap: Heap
    var seen: set<Ref>

    constructor (heap: Heap)
      ensures this.heap == heap && seen == {}
    {
      this.heap := heap;
      seen := {};
    }

    method RedactRecord(fields: OwnFields, depth: nat) returns (shown: Shown)
      requires depth <= MaxDepth
      modifies this`seen
      ensures var all := RedactedAll(heap, Parts(Record(fields)), old(seen), depth);
              shown == Wrapped(Record(fields), all.shown) && seen == all.seen
      decreases MaxDepth + 1 - depth, 0
    {
      shown := Copied([], [], None);
      ghost var all, walked := Parts(Record(fields)), [];
      assert all[..|fields|] == all && fields[..|fields|] == fields;
      for i := 0 to |fields|
        invariant |walked| == i && WalkedAll(walked, seen) == RedactedAll(heap, all[..i], old(seen), depth)
        invariant shown == CopiedFrom(fields[..i], walked)
      {
        WalkingOneMore(heap, all, i, old(seen), depth);
        var one := Redacted;
        if !IsSecretKey(fields[i].key) {
          one := RedactValue(fields[i].value, depth + 1);
        }
        CopyingOneMore(fields, i, walked, one);
        shown := Assigned(shown, fields[i].key, one);
        walked := walked + [one];
      }
    }

    method RedactItems(items: seq<Value>, depth: nat) returns (shown: Shown)
      requires depth <= MaxDepth
      modifies this`seen
      ensures var all := RedactedAll(heap, Parts(List(items)), old(seen), depth);
              shown == Items(all.shown) && seen == all.seen
      decreases MaxDepth + 1 - depth, 0
    {
      var parts := [];
      ghost var all := Parts(List(items));
      assert all[..|items|] == all;
      for i := 0 to |items|
        invariant WalkedAll(parts, seen) == RedactedAll(heap, all[..i], old(seen), depth)
      {
        WalkingOneMore(heap, all, i, old(seen), depth);
        var one := RedactValue(items[i], depth + 1);
        parts := parts + [one];
      }
      shown := Items(parts);
    }

    method RedactValue(v: Value, depth: nat) returns (shown: Shown)
      requires depth <= MaxDepth + 1
      modifies this`seen
      ensures Walked(shown, seen) == RedactedValue(heap, v, old(seen), depth)
      decreases MaxDepth + 1 - depth, 1
    {
      if v.Scalar? { return Same(v); }
      if depth > MaxDepth { return TooDeep; }
      if v.at in seen { return Circular; }
      seen := seen + {v.at};
      match NodeAt(heap, v.at)
      case List(items) => shown := RedactItems(items, depth);
      case Record(fields) => shown := RedactRecord(fields, depth);
      case Other => shown := Same(v);
    }

    method RedactSecrets(root: Ref) returns (shown: Shown)
      requires root in heap && heap[root].Record? && seen == {}
      modifies this`seen
      ensures Walked(shown, seen) == RedactedSecrets(heap, root)
    {
      seen := {root};
      shown := RedactRecord(heap[root].fields, 0);
    }
  }

  // ------------------------------------------------------------ what it shows

  /**
   * `shown` is an honest picture of `v`: the same scalars and class instances,
   * an array for an array, an object for an object with the same properties
   * but for `__proto__`, in the same order, secrets hidden, and a label only
   * where one is due.
   */
  ghost predicate Pictures(h: Heap, v: Value, shown: Shown, depth: nat)
    decreases shown, 0
  {
    if v.Scalar? then shown == Same(v)
    else if depth > MaxDepth then shown == TooDeep
    else
      var n := NodeAt(h, v.at);
      match n
      case Other => shown == Same(v) || shown == Circular
      case Record(fields) =>
        var p := ProtoAt(fields);
        shown == Circular ||
        (&& shown.Copied? && shown.keys == Without(Keys(fields), p)
         && PicturesAll(h, Without(Parts(n), p), shown.parts, depth)
         && (shown.proto.Some? ==>
               p < |fields| && AsPrototype(shown.proto.value) == shown.proto && Pictures(h, fields[p].value, shown.proto.value, depth + 1)))
      case List(items) =>
        shown == Circular || (shown.Items? && PicturesAll(h, Parts(n), shown.parts, depth))
  }

  ghost predicate PicturesPart(h: Heap, part: Part, shown: Shown, depth: nat)
    decreases shown, 1
  {
    if part.hidden then shown == Redacted else Pictures(h, part.value, shown, depth + 1)
  }

  ghost predicate PicturesAll(h: Heap, parts: seq<Part>, shown: seq<Shown>, depth: nat)
    decreases shown
  {
    && |shown| == |parts|
    && forall i :: 0 <= i < |shown| ==> PicturesPart(h, parts[i], shown[i], depth)
  }

  lemma {:induction false} ValueIsPictured(h: Heap, v: Value, seen: set<Ref>, depth: nat)
    requires depth <= MaxDepth + 1
    ensures Pictures(h, v, RedactedValue(h, v, seen, depth).shown, depth)
    decreases MaxDepth + 1 - depth, 1, 0
  {
    if v.Object? && depth <= MaxDepth && v.at !in seen {
      var n := NodeAt(h, v.at);
      AllIsPictured(h, Parts(n), seen + {v.at}, depth);
      if n.Record? { WrappedIsPictured(h, v, n, RedactedAll(h, Parts(n), seen + {v.at}, depth).shown, depth); }
    }
  }

  lemma WrappedIsPictured(h: Heap, v: Value, n: Node, walked: seq<Shown>, depth: nat)
    requires v.Object? && n == NodeAt(h, v.at) && n.Record? && depth <= MaxDepth && PicturesAll(h, Parts(n), walked, depth)
    requires |walked| == |Parts(n)|
    ensures Pictures(h, v, Wrapped(n, walked), depth)
  {
    var p := ProtoAt(n.fields);
    AssigningMakesAllButProto(n.fields, walked);
    WithoutIsPictured(h, Parts(n), walked, p, depth);
    if p < |walked| { assert PicturesPart(h, Parts(n)[p], walked[p], depth); }
  }

  lemma WithoutIsPictured(h: Heap, parts: seq<Part>, shown: seq<Shown>, p: nat, depth: nat)
    requires PicturesAll(h, parts, shown, depth)
    ensures PicturesAll(h, Without(parts, p), Without(shown, p), depth)
  {
    forall i | 0 <= i < |Without(shown, p)| ensures PicturesPart(h, Without(parts, p)[i], Without(shown, p)[i], depth) {
      WithoutAt(shown, p, i);
      WithoutAt(parts, p, i);
      assert PicturesPart(h, parts[if p < |shown| && p <= i then i + 1 else i], Without(shown, p)[i], depth);
    }
  }

  lemma {:induction false} AllIsPictured(h: Heap, parts: seq<Part>, seen: set<Ref>, depth: nat)
    requires depth <= MaxDepth
    ensures PicturesAll(h, parts, RedactedAll(h, parts, seen, depth).shown, depth)
    decreases MaxDepth + 1 - depth, 0, |parts|
  {
    if parts != [] {
      var p := |parts| - 1;
      AllIsPictured(h, parts[..p], seen, depth);
      if !parts[p].hidden {
        ValueIsPictured(h, parts[p].value, RedactedAll(h, parts[..p], seen, depth).seen, depth + 1);
      }
    }
  }

  // ------------------------------------------------- what any such picture keeps

  /** Under every secret-looking key there is the label and nothing else. */
  ghost predicate HidesSecrets(shown: Shown)
    decreases shown
  {
    match shown
    case Copied(keys, parts, proto) =>
      && |keys| == |parts| && (proto.Some? ==> HidesSecrets(proto.value))
      && forall i :: 0 <= i < |parts| ==> HidesSecrets(parts[i]) && (IsSecretKey(keys[i]) ==> parts[i] == Redacted)
    case Items(parts) => forall i :: 0 <= i < |parts| ==> HidesSecrets(parts[i])
    case _ => true
  }

  /** Nothing that is an object or an array of the caller's is in it. */
  ghost predicate SharesNothing(h: Heap, shown: Shown)
    decreases shown
  {
    match shown
    case Same(v) => v.Scalar? || NodeAt(h, v.at).Other?
    case Copied(_, parts, proto) =>
      (proto.Some? ==> SharesNothing(h, proto.value)) && forall i :: 0 <= i < |parts| ==> SharesNothing(h, parts[i])
    case Items(parts) => forall i :: 0 <= i < |parts| ==> SharesNothing(h, parts[i])
    case _ => true
  }

  /** At most `n` objects and arrays inside each other. */
  ghost predicate NoDeeper(shown: Shown, n: int)
    decreases shown
  {
    match shown
    case Copied(_, parts, proto) =>
      && n > 0 && (proto.Some? ==> NoDeeper(proto.value, n - 1))
      && forall i :: 0 <= i < |parts| ==> NoDeeper(parts[i], n - 1)
    case Items(parts) => n > 0 && forall i :: 0 <= i < |parts| ==> NoDeeper(parts[i], n - 1)
    case _ => true
  }

  ghost predicate IsSafe(h: Heap, shown: Shown, n: int) {
    HidesSecrets(shown) && SharesNothing(h, shown) && NoDeeper(shown, n)
  }

  lemma {:induction false} PicturesAreSafe(h: Heap, v: Value, shown: Shown, depth: nat)
    requires Pictures(h, v, shown, depth)
    ensures IsSafe(h, shown, MaxDepth + 1 - depth)
    decreases shown, 1
  {
    if v.Object? && depth <= MaxDepth {
      if shown.Items? {
        PicturedPartsAreSafe(h, Parts(NodeAt(h, v.at)), shown.parts, depth);
      } else if shown.Copied? {
        CopiesAreSafe(h, v, shown, depth);
      }
    }
  }

  lemma {:induction false} CopiesAreSafe(h: Heap, v: Value, shown: Shown, depth: nat)
    requires v.Object? && depth <= MaxDepth && shown.Copied? && Pictures(h, v, shown, depth)
    ensures IsSafe(h, shown, MaxDepth + 1 - depth)
    decreases shown, 0
  {
    var n := NodeAt(h, v.at);
    var p := ProtoAt(n.fields);
    PicturedPartsAreSafe(h, Without(Parts(n), p), shown.parts, depth);
    KeysAreItsParts(n, shown.keys, shown.parts);
    if shown.proto.Some? { PicturesAreSafe(h, n.fields[p].value, shown.proto.value, depth + 1); }
    assert forall i :: 0 <= i < |shown.parts| ==> IsSafe(h, shown.parts[i], MaxDepth - depth);
  }

  lemma KeysAreItsParts(n: Node, keys: seq<string>, parts: seq<Shown>)
    requires n.Record? && keys == Without(Keys(n.fields), ProtoAt(n.fields)) && |parts| == |Without(Parts(n), ProtoAt(n.fields))|
    ensures |keys| == |parts|
    ensures forall i :: 0 <= i < |keys| ==> IsSecretKey(keys[i]) == Without(Parts(n), ProtoAt(n.fields))[i].hidden
  {
    var p := ProtoAt(n.fields);
    forall i | 0 <= i < |keys| ensures IsSecretKey(keys[i]) == Without(Parts(n), p)[i].hidden {
      WithoutAt(Keys(n.fields), p, i);
      WithoutAt(Parts(n), p, i);
    }
  }

  lemma {:induction false} PicturedPartsAreSafe(h: Heap, parts: seq<Part>, shown: seq<Shown>, depth: nat)
    requires PicturesAll(h, parts, shown, depth)
    ensures forall i :: 0 <= i < |shown| ==> IsSafe(h, shown[i], MaxDepth - depth) && (parts[i].hidden ==> shown[i] == Redacted)
    decreases shown
  {
    forall i | 0 <= i < |shown| ensures IsSafe(h, shown[i], MaxDepth - depth) && (parts[i].hidden ==> shown[i] == Redacted) {
      assert PicturesPart(h, parts[i], shown[i], depth);
      if !parts[i].hidden { PicturesAreSafe(h, parts[i].value, shown[i], depth + 1); }
    }
  }

  /** The root is walked as any object met for the first time is. */
  lemma RootIsAValue(h: Heap, root: Ref)
    requires root in h && h[root].Record?
    ensures RedactedSecrets(h, root) == RedactedValue(h, Object(root), {}, 0)
  {
    assert {} + {root} == {root};
  }

  /** Whatever the objects, the line pictures them, hides every secret, shares nothing with them, and is at most nine deep. */
  lemma RedactedIsSafe(h: Heap, root: Ref)
    requires root in h && h[root].Record?
    ensures Pictures(h, Object(root), RedactedSecrets(h, root).shown, 0)
    ensures IsSafe(h, RedactedSecrets(h, root).shown, 9)
  {
    RootIsAValue(h, root);
    ValueIsPictured(h, Object(root), {}, 0);
    PicturesAreSafe(h, Object(root), RedactedSecrets(h, root).shown, 0);
  }

  /** An object met at the ninth level down is left unread, and none before it is. */
  lemma TooDeepExactlyPastEight(h: Heap, v: Value, seen: set<Ref>, depth: nat)
    requires v.Object? && depth <= 9
    ensures RedactedValue(h, v, seen, depth).shown == TooDeep <==> depth == 9
  {
  }

  // ------------------------------------------------------------- each object once

  /** The objects `shown` opens, each as often as it does. */
  ghost function Opened(h: Heap, v: Value, shown: Shown): multiset<Ref>
    decreases shown, 0
  {
    if v.Scalar? then multiset{}
    else
      var n := NodeAt(h, v.at);
      match shown
      case Same(w) => if w.Object? then multiset{v.at} else multiset{}
      case Copied(_, parts, proto) =>
        if !n.Record? then multiset{v.at}
        else
          var p := ProtoAt(n.fields);
          multiset{v.at} + (OpenedAll(h, Without(Parts(n), p), parts) + OpenedProto(h, n.fields, proto))
      case Items(parts) => multiset{v.at} + OpenedAll(h, Parts(n), parts)
      case _ => multiset{}
  }

  ghost function OpenedProto(h: Heap, fields: OwnFields, proto: Option<Shown>): multiset<Ref>
    decreases proto
  {
    if proto.Some? && ProtoAt(fields) < |fields| then Opened(h, fields[ProtoAt(fields)].value, proto.value) else multiset{}
  }

  ghost function OpenedPart(h: Heap, part: Part, shown: Shown): multiset<Ref>
    decreases shown, 1
  {
    if part.hidden then multiset{} else Opened(h, part.value, shown)
  }

  ghost function OpenedAll(h: Heap, parts: seq<Part>, shown: seq<Shown>): multiset<Ref>
    decreases shown
  {
    if shown == [] || |shown| != |parts| then multiset{}
    else
      var p := |shown| - 1;
      OpenedAll(h, parts[..p], shown[..p]) + OpenedPart(h, parts[p], shown[p])
  }

  /** The objects `shown` calls circular. */
  ghost function Labelled(h: Heap, v: Value, shown: Shown): set<Ref>
    decreases shown, 0
  {
    if v.Scalar? then {}
    else
      var n := NodeAt(h, v.at);
      match shown
      case Circular => {v.at}
      case Copied(_, parts, proto) =>
        if !n.Record? then {}
        else
          var p := ProtoAt(n.fields);
          LabelledAll(h, Without(Parts(n), p), parts) + LabelledProto(h, n.fields, proto)
      case Items(parts) => LabelledAll(h, Parts(n), parts)
      case _ => {}
  }

  ghost function LabelledProto(h: Heap, fields: OwnFields, proto: Option<Shown>): set<Ref>
    decreases proto
  {
    if proto.Some? && ProtoAt(fields) < |fields| then Labelled(h, fields[ProtoAt(fields)].value, proto.value) else {}
  }

  ghost function LabelledPart(h: Heap, part: Part, shown: Shown): set<Ref>
    decreases shown, 1
  {
    if part.hidden then {} else Labelled(h, part.value, shown)
  }

  ghost function LabelledAll(h: Heap, parts: seq<Part>, shown: seq<Shown>): set<Ref>
    decreases shown
  {
    if shown == [] || |shown| != |parts| then {}
    else
      var p := |shown| - 1;
      LabelledAll(h, parts[..p], shown[..p]) + LabelledPart(h, parts[p], shown[p])
  }

  lemma {:induction false} OpenedInTwo(h: Heap, a: seq<Part>, x: seq<Shown>, b: seq<Part>, y: seq<Shown>)
    requires |a| == |x| && |b| == |y|
    ensures OpenedAll(h, a + b, x + y) == OpenedAll(h, a, x) + OpenedAll(h, b, y)
    decreases |b|
  {
    if b == [] {
      assert a + b == a && x + y == x;
    } else {
      var n := |b| - 1;
      OpenedInTwo(h, a, x, b[..n], y[..n]);
      assert (a + b)[..|a + b| - 1] == a + b[..n] && (x + y)[..|x + y| - 1] == x + y[..n];
    }
  }

  lemma {:induction false} LabelledInTwo(h: Heap, a: seq<Part>, x: seq<Shown>, b: seq<Part>, y: seq<Shown>)
    requires |a| == |x| && |b| == |y|
    ensures LabelledAll(h, a + b, x + y) == LabelledAll(h, a, x) + LabelledAll(h, b, y)
    decreases |b|
  {
    if b == [] {
      assert a + b == a && x + y == x;
    } else {
      var n := |b| - 1;
      LabelledInTwo(h, a, x, b[..n], y[..n]);
      assert (a + b)[..|a + b| - 1] == a + b[..n] && (x + y)[..|x + y| - 1] == x + y[..n];
    }
  }

  lemma OneAlone(h: Heap, part: Part, shown: Shown)
    ensures OpenedAll(h, [part], [shown]) == OpenedPart(h, part, shown)
    ensures LabelledAll(h, [part], [shown]) == LabelledPart(h, part, shown)
  {
    assert [part][..0] == [] && [shown][..0] == [];
  }

  lemma Cut<T>(s: seq<T>, p: nat)
    requires p < |s|
    ensures s == s[..p] + ([s[p]] + s[p + 1..]) && Without(s, p) == s[..p] + s[p + 1..]
  {
  }

  lemma FromTheMiddle(a: multiset<Ref>, b: multiset<Ref>, c: multiset<Ref>)
    ensures a + (b + c) == a + c + b
  {
  }

  /** Taking one part out takes out what it opens, and nothing else. */
  lemma OneNotOpened(h: Heap, parts: seq<Part>, shown: seq<Shown>, p: nat)
    requires |parts| == |shown| && p < |parts|
    ensures OpenedAll(h, parts, shown) == OpenedAll(h, Without(parts, p), Without(shown, p)) + OpenedPart(h, parts[p], shown[p])
  {
    var a, b, x, y := parts[..p], parts[p + 1..], shown[..p], shown[p + 1..];
    Cut(parts, p);
    Cut(shown, p);
    OneAlone(h, parts[p], shown[p]);
    OpenedInTwo(h, a, x, [parts[p]] + b, [shown[p]] + y);
    OpenedInTwo(h, [parts[p]], [shown[p]], b, y);
    OpenedInTwo(h, a, x, b, y);
    FromTheMiddle(OpenedAll(h, a, x), OpenedPart(h, parts[p], shown[p]), OpenedAll(h, b, y));
  }

  /** And what is left labels nothing new. */
  lemma FewerLabelled(h: Heap, parts: seq<Part>, shown: seq<Shown>, p: nat)
    requires |parts| == |shown| && p < |parts|
    ensures LabelledAll(h, Without(parts, p), Without(shown, p)) <= LabelledAll(h, parts, shown)
    ensures LabelledPart(h, parts[p], shown[p]) <= LabelledAll(h, parts, shown)
  {
    var a, b, x, y := parts[..p], parts[p + 1..], shown[..p], shown[p + 1..];
    Cut(parts, p);
    Cut(shown, p);
    OneAlone(h, parts[p], shown[p]);
    LabelledInTwo(h, a, x, [parts[p]] + b, [shown[p]] + y);
    LabelledInTwo(h, [parts[p]], [shown[p]], b, y);
    LabelledInTwo(h, a, x, b, y);
  }

  /** What a string would have set as a prototype opens nothing. */
  lemma OnlyObjectsAreOpened(h: Heap, part: Part, shown: Shown)
    requires AsPrototype(shown).None?
    ensures OpenedPart(h, part, shown) == multiset{}
  {
  }

  lemma ProtoOpens(h: Heap, fields: OwnFields, shown: Shown, depth: nat)
    requires ProtoAt(fields) < |fields| && PicturesPart(h, FieldPart(fields[ProtoAt(fields)]), shown, depth)
    ensures OpenedProto(h, fields, AsPrototype(shown)) == OpenedPart(h, FieldPart(fields[ProtoAt(fields)]), shown)
    ensures LabelledProto(h, fields, AsPrototype(shown)) <= LabelledPart(h, FieldPart(fields[ProtoAt(fields)]), shown)
  {
    if AsPrototype(shown).None? { OnlyObjectsAreOpened(h, FieldPart(fields[ProtoAt(fields)]), shown); }
  }

  lemma CopyIsItsParts(h: Heap, v: Value, fields: OwnFields, keys: seq<string>, parts: seq<Shown>, proto: Option<Shown>)
    requires v.Object? && NodeAt(h, v.at) == Record(fields)
    ensures var own := Without(Parts(Record(fields)), ProtoAt(fields));
            && Opened(h, v, Copied(keys, parts, proto)) == multiset{v.at} + (OpenedAll(h, own, parts) + OpenedProto(h, fields, proto))
            && Labelled(h, v, Copied(keys, parts, proto)) == LabelledAll(h, own, parts) + LabelledProto(h, fields, proto)
  {
  }

  /** A fresh object opens its object and what its parts opened, the one under `__proto__` as a prototype. */
  lemma CopyOpens(h: Heap, v: Value, fields: OwnFields, walked: seq<Shown>, depth: nat)
    requires v.Object? && NodeAt(h, v.at) == Record(fields) && ProtoAt(fields) < |fields|
    requires |walked| == |fields| && PicturesAll(h, Parts(Record(fields)), walked, depth)
    ensures Opened(h, v, Wrapped(Record(fields), walked)) == multiset{v.at} + OpenedAll(h, Parts(Record(fields)), walked)
    ensures Labelled(h, v, Wrapped(Record(fields), walked)) <= LabelledAll(h, Parts(Record(fields)), walked)
  {
    var p, parts := ProtoAt(fields), Parts(Record(fields));
    AssigningMakesAllButProto(fields, walked);
    CopyIsItsParts(h, v, fields, Without(Keys(fields), p), Without(walked, p), AsPrototype(walked[p]));
    OneNotOpened(h, parts, walked, p);
    FewerLabelled(h, parts, walked, p);
    assert PicturesPart(h, parts[p], walked[p], depth);
    ProtoOpens(h, fields, walked[p], depth);
  }

  /** Any other opens its object and what its parts opened. */
  lemma WrappedOpens(h: Heap, v: Value, walked: seq<Shown>, depth: nat)
    requires v.Object? && !NodeAt(h, v.at).Other?
    requires |walked| == |Parts(NodeAt(h, v.at))| && PicturesAll(h, Parts(NodeAt(h, v.at)), walked, depth)
    ensures var n := NodeAt(h, v.at);
            && Opened(h, v, Wrapped(n, walked)) == multiset{v.at} + OpenedAll(h, Parts(n), walked)
            && Labelled(h, v, Wrapped(n, walked)) <= LabelledAll(h, Parts(n), walked)
  {
    var n := NodeAt(h, v.at);
    if HasProto(n) {
      CopyOpens(h, v, n.fields, walked, depth);
    } else if n.Record? {
      AssigningMakesAllButProto(n.fields, walked);
      assert OpenedAll(h, Parts(n), walked) + multiset{} == OpenedAll(h, Parts(n), walked);
    }
  }

  /** What was seen grew by the objects in `met`, each of them once. */
  ghost predicate GrewBy(before: set<Ref>, after: set<Ref>, met: multiset<Ref>) {
    forall at :: met[at] == if at in after && at !in before then 1 else 0
  }

  ghost predicate Grew(before: set<Ref>, after: set<Ref>, met: multiset<Ref>) {
    before <= after && GrewBy(before, after, met)
  }

  lemma GrewByOne(seen: set<Ref>, at: Ref)
    requires at !in seen
    ensures Grew(seen, seen + {at}, multiset{at})
  {
  }

  lemma GrewTwice(a: set<Ref>, b: set<Ref>, c: set<Ref>, x: multiset<Ref>, y: multiset<Ref>)
    requires Grew(a, b, x) && Grew(b, c, y)
    ensures Grew(a, c, x + y)
  {
  }

  lemma {:induction false} ValueIsOpenedOnce(h: Heap, v: Value, seen: set<Ref>, depth: nat)
    requires depth <= MaxDepth + 1
    ensures var w := RedactedValue(h, v, seen, depth);
            Grew(seen, w.seen, Opened(h, v, w.shown)) && Labelled(h, v, w.shown) <= w.seen
    decreases MaxDepth + 1 - depth, 1, 0
  {
    if v.Object? && depth <= MaxDepth && v.at !in seen {
      GrewByOne(seen, v.at);
      var parts := Parts(NodeAt(h, v.at));
      var all := RedactedAll(h, parts, seen + {v.at}, depth);
      AllAreOpenedOnce(h, parts, seen + {v.at}, depth);
      GrewTwice(seen, seen + {v.at}, all.seen, multiset{v.at}, OpenedAll(h, parts, all.shown));
      if !NodeAt(h, v.at).Other? {
        AllIsPictured(h, parts, seen + {v.at}, depth);
        WrappedOpens(h, v, all.shown, depth);
      }
    }
  }

  /** Opening a list part by part is opening each in turn. */
  lemma OneMorePart(h: Heap, parts: seq<Part>, shown: seq<Shown>, one: Shown)
    requires |parts| == |shown| + 1
    ensures var last := parts[|shown|];
            && OpenedAll(h, parts, shown + [one]) ==
               OpenedAll(h, parts[..|shown|], shown) + OpenedPart(h, last, one)
            && LabelledAll(h, parts, shown + [one]) ==
               LabelledAll(h, parts[..|shown|], shown) + LabelledPart(h, last, one)
  {
    assert (shown + [one])[..|shown|] == shown;
  }

  ghost predicate AllOnce(h: Heap, parts: seq<Part>, seen: set<Ref>, w: WalkedAll) {
    && |w.shown| == |parts|
    && Grew(seen, w.seen, OpenedAll(h, parts, w.shown))
    && LabelledAll(h, parts, w.shown) <= w.seen
  }

  ghost predicate PartOnce(h: Heap, part: Part, seen: set<Ref>, w: Walked) {
    Grew(seen, w.seen, OpenedPart(h, part, w.shown)) && LabelledPart(h, part, w.shown) <= w.seen
  }

  lemma OneMoreOnce(h: Heap, parts: seq<Part>, seen: set<Ref>, before: WalkedAll, one: Walked)
    requires parts != [] && AllOnce(h, parts[..|parts| - 1], seen, before)
    requires PartOnce(h, parts[|parts| - 1], before.seen, one)
    ensures AllOnce(h, parts, seen, WalkedAll(before.shown + [one.shown], one.seen))
  {
    var last := parts[|parts| - 1];
    OneMorePart(h, parts, before.shown, one.shown);
    GrewTwice(seen, before.seen, one.seen, OpenedAll(h, parts[..|parts| - 1], before.shown), OpenedPart(h, last, one.shown));
  }

  lemma {:induction false} PartIsOpenedOnce(h: Heap, part: Part, seen: set<Ref>, depth: nat)
    requires depth <= MaxDepth
    ensures PartOnce(h, part, seen, RedactedPart(h, part, seen, depth))
    decreases MaxDepth + 1 - depth, 0, 0
  {
    if !part.hidden { ValueIsOpenedOnce(h, part.value, seen, depth + 1); }
  }

  lemma {:induction false} AllAreOpenedOnce(h: Heap, parts: seq<Part>, seen: set<Ref>, depth: nat)
    requires depth <= MaxDepth
    ensures AllOnce(h, parts, seen, RedactedAll(h, parts, seen, depth))
    decreases MaxDepth + 1 - depth, 0, |parts|
  {
    if parts == [] {
      NothingIsOnce(h, seen);
    } else {
      var p := |parts| - 1;
      var before := RedactedAll(h, parts[..p], seen, depth);
      AllAreOpenedOnce(h, parts[..p], seen, depth);
      PartIsOpenedOnce(h, parts[p], before.seen, depth);
      OneMoreOnce(h, parts, seen, before, RedactedPart(h, parts[p], before.seen, depth));
    }
  }

  lemma NothingIsOnce(h: Heap, seen: set<Ref>)
    ensures AllOnce(h, [], seen, WalkedAll([], seen))
  {
  }

  /** What is shown of the first parts, and what they made seen, does not depend on the parts after them. */
  lemma {:induction false} EarlierPartsComeFirst(h: Heap, parts: seq<Part>, seen: set<Ref>, depth: nat, n: nat)
    requires depth <= MaxDepth && n <= |parts|
    ensures |RedactedAll(h, parts, seen, depth).shown| == |parts|
    ensures RedactedAll(h, parts[..n], seen, depth).shown == RedactedAll(h, parts, seen, depth).shown[..n]
    ensures AllOnce(h, parts[..n], seen, RedactedAll(h, parts[..n], seen, depth))
    decreases |parts|
  {
    AllAreOpenedOnce(h, parts, seen, depth);
    AllAreOpenedOnce(h, parts[..n], seen, depth);
    if n == |parts| {
      assert parts[..n] == parts;
    } else {
      var p := |parts| - 1;
      assert parts[..p][..n] == parts[..n];
      EarlierPartsComeFirst(h, parts[..p], seen, depth, n);
    }
  }

  /**
   * However the objects share and circle, each is opened at most once, and one
   * that is called circular has been opened.
   */
  lemma EachObjectIsOpenedOnce(h: Heap, root: Ref)
    requires root in h && h[root].Record?
    ensures var shown := RedactedSecrets(h, root).shown;
            var met := Opened(h, Object(root), shown);
            && (forall at :: met[at] <= 1)
            && forall at :: at in Labelled(h, Object(root), shown) ==> at in met
  {
    RootIsAValue(h, root);
    ValueIsOpenedOnce(h, Object(root), {}, 0);
  }

  // ------------------------------------------------------------ the keys it keeps

  lemma WithoutNothingExactlyWithoutProto(fields: OwnFields)
    ensures Without(Keys(fields), ProtoAt(fields)) == Keys(fields) <==> !HasProto(Record(fields))
    ensures HasProto(Record(fields)) <==> Proto in Keys(fields)
  {
    var p := ProtoAt(fields);
    if p < |fields| { assert Keys(fields)[p] == Proto; }
    assert forall i :: 0 <= i < |fields| ==> Keys(fields)[i] == fields[i].key;
  }

  /** At every record in `shown`, however deep: it has the keys of the record it pictures exactly when none of them is `__proto__`. */
  ghost predicate EachKeepsItsKeysExactly(h: Heap, v: Value, shown: Shown)
    decreases shown, 0
  {
    v.Object? ==>
      var n := NodeAt(h, v.at);
      match shown
      case Copied(keys, parts, proto) =>
        && n.Record?
        && (keys == Keys(n.fields) <==> Proto !in Keys(n.fields))
        && AllKeepTheirsExactly(h, Without(Parts(n), ProtoAt(n.fields)), parts)
        && (proto.Some? ==> HasProto(n) && EachKeepsItsKeysExactly(h, n.fields[ProtoAt(n.fields)].value, proto.value))
      case Items(parts) => AllKeepTheirsExactly(h, Parts(n), parts)
      case _ => true
  }

  ghost predicate AllKeepTheirsExactly(h: Heap, parts: seq<Part>, shown: seq<Shown>)
    decreases shown
  {
    && |shown| == |parts|
    && forall i :: 0 <= i < |shown| ==> parts[i].hidden || EachKeepsItsKeysExactly(h, parts[i].value, shown[i])
  }

  lemma {:induction false} PicturedKeepsItsKeysExactly(h: Heap, v: Value, shown: Shown, depth: nat)
    requires Pictures(h, v, shown, depth)
    ensures EachKeepsItsKeysExactly(h, v, shown)
    decreases shown, 0
  {
    if v.Object? && depth <= MaxDepth {
      var n := NodeAt(h, v.at);
      if shown.Items? {
        AllPicturedKeepTheirs(h, Parts(n), shown.parts, depth);
      } else if shown.Copied? {
        WithoutNothingExactlyWithoutProto(n.fields);
        AllPicturedKeepTheirs(h, Without(Parts(n), ProtoAt(n.fields)), shown.parts, depth);
        if shown.proto.Some? {
          PicturedKeepsItsKeysExactly(h, n.fields[ProtoAt(n.fields)].value, shown.proto.value, depth + 1);
        }
      }
    }
  }

  lemma {:induction false} AllPicturedKeepTheirs(h: Heap, parts: seq<Part>, shown: seq<Shown>, depth: nat)
    requires PicturesAll(h, parts, shown, depth)
    ensures AllKeepTheirsExactly(h, parts, shown)
    decreases shown
  {
    forall i | 0 <= i < |shown| ensures parts[i].hidden || EachKeepsItsKeysExactly(h, parts[i].value, shown[i]) {
      assert PicturesPart(h, parts[i], shown[i], depth);
      if !parts[i].hidden { PicturedKeepsItsKeysExactly(h, parts[i].value, shown[i], depth + 1); }
    }
  }

  /** Every record logged, at any depth, has exactly the keys it had, exactly unless one of them is `__proto__`. */
  lemma KeysAreKeptExactlyWithoutProto(h: Heap, root: Ref)
    requires root in h && h[root].Record?
    ensures EachKeepsItsKeysExactly(h, Object(root), RedactedSecrets(h, root).shown)
  {
    RedactedIsSafe(h, root);
    PicturedKeepsItsKeysExactly(h, Object(root), RedactedSecrets(h, root).shown, 0);
  }

  /** A record whose one field is a record with a `__proto__` of its own. */
  const Nested: Heap := map[0 := Record([Field("a", Object(1))]), 1 := Record([Field("__proto__", Scalar("x"))])]

  lemma ShortKeysAreNoSecret(key: string)
    requires |Normalised(key)| < 5
    ensures !IsSecretKey(key)
  {
  }

  lemma OneAssigned(f: Field, part: Shown)
    ensures CopiedFrom([f], [part]) == Assigned(Copied([], [], None), f.key, part)
  {
    var fields, parts := [f], [part];
    assert fields[..0] == [] && parts[..0] == [];
    assert CopiedFrom(fields[..0], parts[..0]) == Copied([], [], None);
  }

  lemma OneField(h: Heap, at: Ref, f: Field, seen: set<Ref>, depth: nat)
    requires at in h && h[at] == Record([f]) && at !in seen && depth <= MaxDepth
    ensures RedactedValue(h, Object(at), seen, depth).shown ==
            Assigned(Copied([], [], None), f.key, RedactedPart(h, FieldPart(f), seen + {at}, depth).shown)
  {
    var one := RedactedPart(h, FieldPart(f), seen + {at}, depth);
    assert Parts(h[at]) == [FieldPart(f)] && [FieldPart(f)][..0] == [];
    assert RedactedAll(h, [FieldPart(f)], seen + {at}, depth).shown == [one.shown];
    OneAssigned(f, one.shown);
  }

  /** It is logged as a record holding an empty one. */
  lemma ANestedKeyIsLost()
    ensures RedactedSecrets(Nested, 0).shown == Copied(["a"], [Copied([], [], None)], None)
  {
    var outer, inner := Field("a", Object(1)), Field("__proto__", Scalar("x"));
    ShortKeysAreNoSecret("a");
    RootIsAValue(Nested, 0);
    OneField(Nested, 0, outer, {}, 0);
    OneField(Nested, 1, inner, {} + {0}, 1);
  }
}
