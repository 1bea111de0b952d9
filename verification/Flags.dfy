/** Reading a command line: `readFlags`, and what it accepts. */
module Flags {
  import opened Outcomes

  /** What one stretch of a command line is read as. */
  datatype Piece =
    | Joined(flag: string, value: string)
    | Apart(flag: string, value: string)
    | Unknown(argument: string)
    | Bare(flag: string)

  /** The arguments a piece was read from. */
  function Spelling(p: Piece): seq<string> {
    match p
    case Joined(flag, value) => [flag + "=" + value]
    case Apart(flag, value) => [flag, value]
    case Unknown(argument) => [argument]
    case Bare(flag) => [flag]
  }

  function Spelled(pieces: seq<Piece>): seq<string> {
    if pieces == [] then [] else Spelling(pieces[0]) + Spelled(pieces[1..])
  }

  predicate IsProblem(p: Piece) {
    p.Unknown? || p.Bare?
  }

  /** `argument.indexOf('=')`. */
  function Separator(argument: string): (at: Option<nat>)
    ensures at.Some? ==> at.value < |argument| && argument[at.value] == '=' && '=' !in argument[..at.value]
    ensures at.None? ==> '=' !in argument
  {
    if argument == "" then None
    else if argument[0] == '=' then Some(0)
    else
      var at := Separator(argument[1..]);
      if at.None? then None
      else
        assert argument[..at.value + 1] == [argument[0]] + argument[1..][..at.value];
        Some(at.value + 1)
  }

  predicate StartsWithDashes(s: string) {
    "--" <= s
  }

  /** What the command line holds at `index`. */
  function PieceAt(argv: seq<string>, index: nat, known: set<string>): Piece
    requires index < |argv|
  {
    var argument := argv[index];
    var separator := Separator(argument);
    var flag := if separator.None? then argument else argument[..separator.value];
    if flag !in known then Unknown(argument)
    else if separator.Some? then Joined(flag, argument[separator.value + 1..])
    else if index + 1 == |argv| || StartsWithDashes(argv[index + 1]) then Bare(flag)
    else Apart(flag, argv[index + 1])
  }

  /** How many arguments a piece takes. */
  function Width(p: Piece): nat {
    if p.Apart? then 2 else 1
  }

  function PiecesFrom(argv: seq<string>, index: nat, known: set<string>): seq<Piece>
    decreases |argv| - index
  {
    if index >= |argv| then []
    else
      var p := PieceAt(argv, index, known);
      [p] + PiecesFrom(argv, index + Width(p), known)
  }

  function Pieces(argv: seq<string>, known: set<string>): seq<Piece> {
    PiecesFrom(argv, 0, known)
  }

  /** The values each flag was given, in order. */
  function ValuesOf(pieces: seq<Piece>, flag: string): seq<string> {
    if pieces == [] then []
    else (if !IsProblem(pieces[0]) && pieces[0].flag == flag then [pieces[0].value] else []) + ValuesOf(pieces[1..], flag)
  }

  function FlagsIn(pieces: seq<Piece>): set<string> {
    set p | p in pieces && !IsProblem(p) :: p.flag
  }

  function Collected(pieces: seq<Piece>): map<string, seq<string>> {
    map flag | flag in FlagsIn(pieces) :: ValuesOf(pieces, flag)
  }

  function Problems(pieces: seq<Piece>): seq<Piece> {
    if pieces == [] then []
    else if IsProblem(pieces[0]) then [pieces[0]] + Problems(pieces[1..])
    else Problems(pieces[1..])
  }

  function Read(argv: seq<string>, known: set<string>): Result<map<string, seq<string>>, seq<Piece>> {
    var pieces := Pieces(argv, known);
    if Problems(pieces) != [] then Refused(Problems(pieces)) else Ok(Collected(pieces))
  }

  // ------------------------------------------------------------------- the loop

  lemma {:induction false} ValuesOfOneMore(pieces: seq<Piece>, p: Piece, flag: string)
    ensures ValuesOf(pieces + [p], flag) ==
            ValuesOf(pieces, flag) + (if !IsProblem(p) && p.flag == flag then [p.value] else [])
  {
    if pieces == [] {
      assert pieces + [p] == [p];
    } else {
      assert (pieces + [p])[0] == pieces[0] && (pieces + [p])[1..] == pieces[1..] + [p];
      ValuesOfOneMore(pieces[1..], p, flag);
    }
  }

  lemma {:induction false} ProblemsOneMore(pieces: seq<Piece>, p: Piece)
    ensures Problems(pieces + [p]) == if IsProblem(p) then Problems(pieces) + [p] else Problems(pieces)
  {
    if pieces == [] {
      assert pieces + [p] == [p];
    } else {
      assert (pieces + [p])[0] == pieces[0] && (pieces + [p])[1..] == pieces[1..] + [p];
      ProblemsOneMore(pieces[1..], p);
    }
  }

  lemma {:induction false} UnnamedHasNoValues(pieces: seq<Piece>, flag: string)
    ensures ValuesOf(pieces, flag) == [] <==> flag !in FlagsIn(pieces)
  {
    if pieces != [] {
      UnnamedHasNoValues(pieces[1..], flag);
      assert forall p :: p in pieces <==> p == pieces[0] || p in pieces[1..];
    }
  }

  function Added(values: map<string, seq<string>>, flag: string, value: string): map<string, seq<string>> {
    values[flag := if flag in values then values[flag] + [value] else [value]]
  }

  lemma CollectedOneMoreFor(pieces: seq<Piece>, p: Piece, flag: string)
    ensures var before, after, given := FlagsIn(pieces), FlagsIn(pieces + [p]), !IsProblem(p) && p.flag == flag;
            && (flag in after <==> flag in before || given)
            && (given ==> ValuesOf(pieces + [p], flag) == ValuesOf(pieces, flag) + [p.value])
            && (!given ==> ValuesOf(pieces + [p], flag) == ValuesOf(pieces, flag))
            && (flag !in before ==> ValuesOf(pieces, flag) == [])
  {
    ValuesOfOneMore(pieces, p, flag);
    UnnamedHasNoValues(pieces, flag);
    UnnamedHasNoValues(pieces + [p], flag);
  }

  lemma CollectedOneMore(pieces: seq<Piece>, p: Piece)
    ensures Collected(pieces + [p]) == if IsProblem(p) then Collected(pieces) else Added(Collected(pieces), p.flag, p.value)
  {
    var before, after := Collected(pieces), Collected(pieces + [p]);
    var expected := if IsProblem(p) then before else Added(before, p.flag, p.value);
    forall flag ensures flag in after <==> flag in expected
                ensures flag in after && flag in expected ==> after[flag] == expected[flag]
    {
      CollectedOneMoreFor(pieces, p, flag);
    }
    assert after == expected;
  }

  lemma Regroup(read: seq<Piece>, p: Piece, rest: seq<Piece>)
    ensures read + ([p] + rest) == read + [p] + rest
  {
  }

  lemma OneMorePiece(argv: seq<string>, known: set<string>, index: nat, read: seq<Piece>, all: seq<Piece>)
    requires index < |argv| && read + PiecesFrom(argv, index, known) == all
    ensures var p := PieceAt(argv, index, known);
            read + [p] + PiecesFrom(argv, index + Width(p), known) == all
  {
    var p := PieceAt(argv, index, known);
    Regroup(read, p, PiecesFrom(argv, index + Width(p), known));
  }

  method ReadFlags(argv: seq<string>, known: set<string>) returns (r: Result<map<string, seq<string>>, seq<Piece>>)
    ensures r == Read(argv, known)
  {
    var values: map<string, seq<string>> := map[];
    var problems: seq<Piece> := [];
    ghost var read: seq<Piece> := [];
    var index: nat := 0;
    while index < |argv|
      invariant read + PiecesFrom(argv, index, known) == Pieces(argv, known)
      invariant values == Collected(read) && problems == Problems(read)
    {
      var argument := argv[index];
      var separator := Separator(argument);
      var flag := if separator.None? then argument else argument[..separator.value];
      ghost var p := PieceAt(argv, index, known);
      OneMorePiece(argv, known, index, read, Pieces(argv, known));
      CollectedOneMore(read, p);
      ProblemsOneMore(read, p);
      read := read + [p];
      index := index + 1;
      if flag !in known {
        problems := problems + [Unknown(argument)];
        continue;
      }
      if separator.Some? {
        values := Added(values, flag, argument[separator.value + 1..]);
        continue;
      }
      if index == |argv| || StartsWithDashes(argv[index]) {
        problems := problems + [Bare(flag)];
        continue;
      }
      values := Added(values, flag, argv[index]);
      index := index + 1;
    }
    assert read + [] == read;
    r := if problems != [] then Refused(problems) else Ok(values);
  }

  // ------------------------------------------------------------- what it accepts

  lemma PieceIsWhatIsThere(argv: seq<string>, index: nat, known: set<string>)
    requires index < |argv|
    ensures var p := PieceAt(argv, index, known);
            index + Width(p) <= |argv| && Spelling(p) == argv[index..index + Width(p)]
  {
    var p := PieceAt(argv, index, known);
    if p.Joined? {
      assert argv[index] == p.flag + "=" + p.value;
    }
  }

  lemma {:induction false} NothingIsLostFrom(argv: seq<string>, index: nat, known: set<string>)
    requires index <= |argv|
    ensures Spelled(PiecesFrom(argv, index, known)) == argv[index..]
    decreases |argv| - index
  {
    if index < |argv| {
      var next := index + Width(PieceAt(argv, index, known));
      PieceIsWhatIsThere(argv, index, known);
      NothingIsLostFrom(argv, next, known);
      assert argv[index..] == argv[index..next] + argv[next..];
    }
  }

  /** Every argument is accounted for once and in order, problems included. */
  lemma NothingIsLost(argv: seq<string>, known: set<string>)
    ensures Spelled(Pieces(argv, known)) == argv
  {
    NothingIsLostFrom(argv, 0, known);
    assert argv[0..] == argv;
  }

  ghost predicate IsItem(p: Piece, known: set<string>) {
    !IsProblem(p) && p.flag in known && (p.Apart? ==> !("--" <= p.value))
  }

  ghost predicate AreItems(pieces: seq<Piece>, known: set<string>) {
    forall i :: 0 <= i < |pieces| ==> IsItem(pieces[i], known)
  }

  ghost predicate NoneHoldsEquals(known: set<string>) {
    forall flag :: flag in known ==> '=' !in flag
  }

  lemma {:induction false} NoProblemsMeansItems(argv: seq<string>, index: nat, known: set<string>)
    ensures Problems(PiecesFrom(argv, index, known)) == [] ==> AreItems(PiecesFrom(argv, index, known), known)
    decreases |argv| - index
  {
    if index < |argv| {
      NoProblemsMeansItems(argv, index + Width(PieceAt(argv, index, known)), known);
    }
  }

  lemma {:induction false} ItemsAreNoProblem(pieces: seq<Piece>, known: set<string>)
    requires AreItems(pieces, known)
    ensures Problems(pieces) == []
  {
    if pieces != [] { ItemsAreNoProblem(pieces[1..], known); }
  }

  lemma {:induction false} SeparatorIsAfterTheFlag(flag: string, value: string)
    requires '=' !in flag
    ensures Separator(flag + "=" + value) == Some(|flag|)
  {
    if flag != "" {
      assert flag[0] in flag && flag[0] != '=';
      SeparatorIsAfterTheFlag(flag[1..], value);
      assert (flag + "=" + value)[1..] == flag[1..] + "=" + value;
    }
  }

  lemma PieceIsTheItem(argv: seq<string>, index: nat, p: Piece, known: set<string>)
    requires IsItem(p, known) && NoneHoldsEquals(known)
    requires index + Width(p) <= |argv| && argv[index..index + Width(p)] == Spelling(p)
    ensures PieceAt(argv, index, known) == p
  {
    assert argv[index] == argv[index..index + Width(p)][0];
    if p.Joined? {
      SeparatorIsAfterTheFlag(p.flag, p.value);
      assert argv[index][..|p.flag|] == p.flag && argv[index][|p.flag| + 1..] == p.value;
    } else {
      assert argv[index + 1] == argv[index..index + 2][1];
    }
  }

  lemma {:induction false} ItemsReadBackFrom(argv: seq<string>, index: nat, items: seq<Piece>, known: set<string>)
    requires AreItems(items, known) && NoneHoldsEquals(known)
    requires index <= |argv| && argv[index..] == Spelled(items)
    ensures PiecesFrom(argv, index, known) == items
    decreases |items|
  {
    if items != [] {
      var next := index + Width(items[0]);
      assert argv[index..] == Spelling(items[0]) + Spelled(items[1..]);
      assert argv[index..next] == argv[index..][..Width(items[0])] == Spelling(items[0]);
      assert argv[next..] == argv[index..][Width(items[0])..] == Spelled(items[1..]);
      PieceIsTheItem(argv, index, items[0], known);
      ItemsReadBackFrom(argv, next, items[1..], known);
    }
  }

  /** There is one way to read a command line as items, and it is the way it is read. */
  lemma ItemsReadBack(items: seq<Piece>, known: set<string>)
    requires AreItems(items, known) && NoneHoldsEquals(known)
    ensures Pieces(Spelled(items), known) == items
  {
    assert Spelled(items)[0..] == Spelled(items);
    ItemsReadBackFrom(Spelled(items), 0, items, known);
  }

  ghost predicate Splits(argv: seq<string>, known: set<string>, items: seq<Piece>) {
    AreItems(items, known) && Spelled(items) == argv
  }

  /** It succeeds exactly on the command lines that split into items, and with every value each flag was given. */
  lemma ReadsExactlyItems(argv: seq<string>, known: set<string>, values: map<string, seq<string>>)
    requires NoneHoldsEquals(known)
    ensures Read(argv, known) == Ok(values) <==> exists items :: Splits(argv, known, items) && values == Collected(items)
  {
    if Read(argv, known) == Ok(values) {
      NothingIsLost(argv, known);
      NoProblemsMeansItems(argv, 0, known);
      assert Splits(argv, known, Pieces(argv, known));
    }
    if items :| Splits(argv, known, items) && values == Collected(items) {
      ItemsReadBack(items, known);
      ItemsAreNoProblem(items, known);
    }
  }

  /** What was read, written again with every flag joined to its value. */
  function Rewritten(items: seq<Piece>): (joined: seq<Piece>)
    requires forall i :: 0 <= i < |items| ==> !IsProblem(items[i])
  {
    seq(|items|, i requires 0 <= i < |items| && !IsProblem(items[i]) => Joined(items[i].flag, items[i].value))
  }

  lemma {:induction false} RewritingKeepsValues(items: seq<Piece>, flag: string)
    requires forall i :: 0 <= i < |items| ==> !IsProblem(items[i])
    ensures ValuesOf(Rewritten(items), flag) == ValuesOf(items, flag)
  {
    if items != [] {
      assert Rewritten(items)[1..] == Rewritten(items[1..]);
      RewritingKeepsValues(items[1..], flag);
    }
  }

  /** A command line rewritten as `flag=value` throughout is read to the same values. */
  lemma RewrittenReadsTheSame(argv: seq<string>, known: set<string>)
    requires NoneHoldsEquals(known) && Read(argv, known).Ok?
    ensures forall i :: 0 <= i < |Pieces(argv, known)| ==> !IsProblem(Pieces(argv, known)[i])
    ensures Read(Spelled(Rewritten(Pieces(argv, known))), known) == Read(argv, known)
  {
    var items := Pieces(argv, known);
    NoProblemsMeansItems(argv, 0, known);
    var joined := Rewritten(items);
    assert AreItems(joined, known);
    ItemsReadBack(joined, known);
    ItemsAreNoProblem(joined, known);
    forall flag ensures ValuesOf(joined, flag) == ValuesOf(items, flag) && (flag in FlagsIn(joined) <==> flag in FlagsIn(items)) {
      RewritingKeepsValues(items, flag);
      UnnamedHasNoValues(joined, flag);
      UnnamedHasNoValues(items, flag);
    }
    assert Collected(joined) == Collected(items);
  }

  lemma {:induction false} SpelledOneMore(pieces: seq<Piece>, p: Piece)
    ensures Spelled(pieces + [p]) == Spelled(pieces) + Spelling(p)
  {
    if pieces == [] {
      assert pieces + [p] == [p];
    } else {
      assert (pieces + [p])[0] == pieces[0] && (pieces + [p])[1..] == pieces[1..] + [p];
      SpelledOneMore(pieces[1..], p);
    }
  }

  lemma OneMoreIsRead(argv: seq<string>, known: set<string>, p: Piece)
    requires NoneHoldsEquals(known) && Read(argv, known).Ok? && IsItem(p, known)
    ensures Read(argv + Spelling(p), known) == Ok(Added(Read(argv, known).value, p.flag, p.value))
  {
    var items := Pieces(argv, known);
    NothingIsLost(argv, known);
    NoProblemsMeansItems(argv, 0, known);
    SpelledOneMore(items, p);
    ItemsReadBack(items + [p], known);
    ItemsAreNoProblem(items + [p], known);
    CollectedOneMore(items, p);
  }

  /**
   * What every accepted command line comes to: nothing from nothing, and one
   * more `flag=value`, or `flag` and `value`, gives that flag one more value,
   * after those it has, and leaves the other flags as they were.
   */
  lemma ReadsOneMore(argv: seq<string>, known: set<string>, flag: string, value: string)
    requires NoneHoldsEquals(known) && Read(argv, known).Ok? && flag in known
    ensures var values := Read(argv, known).value;
            var more := values[flag := (if flag in values then values[flag] else []) + [value]];
            && Read([], known) == Ok(map[])
            && Read(argv + [flag + "=" + value], known) == Ok(more)
            && (!("--" <= value) ==> Read(argv + [flag, value], known) == Ok(more))
  {
    OneMoreIsRead(argv, known, Joined(flag, value));
    if !("--" <= value) { OneMoreIsRead(argv, known, Apart(flag, value)); }
    var values := Read(argv, known).value;
    assert flag !in values ==> [] + [value] == [value];
  }

  /** What is wrong with `p` can be seen in the command line. */
  ghost predicate IsReal(argv: seq<string>, known: set<string>, p: Piece) {
    match p
    case Unknown(argument) =>
      && argument in argv && ('=' !in argument ==> argument !in known)
      && forall at :: 0 <= at < |argument| && argument[at] == '=' && '=' !in argument[..at] ==> argument[..at] !in known
    case Bare(flag) =>
      flag in known && exists i :: 0 <= i < |argv| && argv[i] == flag && (i + 1 == |argv| || "--" <= argv[i + 1])
    case _ => false
  }

  lemma FirstSeparatorIsOne(argument: string, at: nat)
    requires at < |argument| && argument[at] == '=' && '=' !in argument[..at]
    ensures Separator(argument) == Some(at)
  {
    var found := Separator(argument);
    assert forall i :: 0 <= i < at ==> argument[i] in argument[..at];
    assert found.Some? ==> forall i :: 0 <= i < found.value ==> argument[i] in argument[..found.value];
  }

  lemma ProblemIsReal(argv: seq<string>, index: nat, known: set<string>)
    requires index < |argv| && IsProblem(PieceAt(argv, index, known))
    ensures IsReal(argv, known, PieceAt(argv, index, known))
  {
    var argument := argv[index];
    forall at | 0 <= at < |argument| && argument[at] == '=' && '=' !in argument[..at] ensures Separator(argument) == Some(at) {
      FirstSeparatorIsOne(argument, at);
    }
  }

  lemma {:induction false} ProblemsAreRealFrom(argv: seq<string>, index: nat, known: set<string>)
    ensures forall p :: p in Problems(PiecesFrom(argv, index, known)) ==> IsReal(argv, known, p)
    decreases |argv| - index
  {
    if index < |argv| {
      var p := PieceAt(argv, index, known);
      ProblemsAreRealFrom(argv, index + Width(p), known);
      if IsProblem(p) { ProblemIsReal(argv, index, known); }
    }
  }

  /** A refusal names at least one problem, and none that is not there. */
  lemma RefusedForAReason(argv: seq<string>, known: set<string>)
    requires Read(argv, known).Refused?
    ensures Read(argv, known).why != [] && forall p :: p in Read(argv, known).why ==> IsReal(argv, known, p)
  {
    ProblemsAreRealFrom(argv, 0, known);
  }
}
