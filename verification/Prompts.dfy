/**
 * Answering a wizard on a terminal: what `whatToType` types as the transcript
 * arrives chunk by chunk, and that no line is answered twice.
 */
module Prompts {
  import opened Outcomes

  // ------------------------------------------------------ the text of a transcript

  const Escape := '\U{1B}'
  const Return := "\r"

  predicate IsParameter(c: char) {
    '0' <= c <= '9' || c == ';' || c == '?'
  }

  predicate IsLetter(c: char) {
    'A' <= c <= 'Z' || 'a' <= c <= 'z'
  }

  /** Where the run of parameters at `i` ends. */
  function ParametersEnd(s: string, i: nat): (end: nat)
    requires i <= |s|
    ensures i <= end <= |s| && (end < |s| ==> !IsParameter(s[end]))
    ensures forall k :: i <= k < end ==> IsParameter(s[k])
    decreases |s| - i
  {
    if i < |s| && IsParameter(s[i]) then ParametersEnd(s, i + 1) else i
  }

  /** The length of the cursor sequence `s` starts with, or 0. */
  function Cursor(s: string): (n: nat)
    ensures n <= |s|
  {
    if |s| < 2 || s[0] != Escape || s[1] != '[' then 0
    else
      var end := ParametersEnd(s, 2);
      if end < |s| && IsLetter(s[end]) then end + 1 else 0
  }

  function Stripped(s: string): string
    decreases |s|
  {
    if s == "" then "" else if Cursor(s) > 0 then Stripped(s[Cursor(s)..]) else [s[0]] + Stripped(s[1..])
  }

  /** Every `\r\n` made `\n`. */
  function Unreturned(s: string): string {
    if s == "" then ""
    else if s[0] == '\r' && |s| > 1 && s[1] == '\n' then "\n" + Unreturned(s[2..])
    else [s[0]] + Unreturned(s[1..])
  }

  /** What a person reads of what the child wrote. */
  function Written(raw: string): string {
    Unreturned(Stripped(raw))
  }

  // -------------------------------------------------------------------- the rule

  const Banner := "agentplex setup"
  const DefaultOffered := "] "
  const InstallOffer := "[install] "
  const SaveQuestion := "Save this plan to a file?"
  const AnotherPathQuestion := "Try another path?"

  predicate EndsWith(s: string, end: string) {
    |end| <= |s| && s[|s| - |end|..] == end
  }

  predicate Includes(s: string, part: string) {
    exists i :: 0 <= i <= |s| && part <= s[i..]
  }

  predicate IsALoginOffer(prompt: string) {
    "Log " <= prompt && Includes(prompt, " in now? ")
  }

  function AsAnOperatorWould(prompt: string): Option<string> {
    if !EndsWith(prompt, DefaultOffered) then None
    else if IsALoginOffer(prompt) then Some("n" + Return)
    else if SaveQuestion <= prompt then Some("y" + Return)
    else if AnotherPathQuestion <= prompt then Some("n" + Return)
    else if EndsWith(prompt, InstallOffer) then Some("skip" + Return)
    else Some(Return)
  }

  predicate IsBreak(c: char) {
    c == '\r' || c == '\n'
  }

  /** The line being written: everything after the last break. */
  function LastLine(text: string): (line: string)
    ensures |line| <= |text|
  {
    if text == "" || IsBreak(text[|text| - 1]) then "" else LastLine(text[..|text| - 1]) + [text[|text| - 1]]
  }

  predicate IsWhite(c: char) {
    || '\t' <= c <= '\r' || c == ' ' || c == '\U{A0}' || c == '\U{1680}' || '\U{2000}' <= c <= '\U{200A}'
    || c == '\U{2028}' || c == '\U{2029}' || c == '\U{202F}' || c == '\U{205F}' || c == '\U{3000}' || c == '\U{FEFF}'
  }

  /** `s.trim()`. */
  function Trimmed(s: string): (t: string)
    ensures t == "" || (!IsWhite(t[0]) && !IsWhite(t[|t| - 1]))
  {
    if s == "" then ""
    else if IsWhite(s[0]) then Trimmed(s[1..])
    else if IsWhite(s[|s| - 1]) then Trimmed(s[..|s| - 1])
    else s
  }

  function PendingPrompt(text: string): string {
    var last := LastLine(text);
    if forall i :: 0 <= i < |last| ==> IsWhite(last[i]) then "" else last
  }

  datatype Typing = Typing(armed: bool, answeredAfter: int)

  const BeforeTheWizard := Typing(false, -1)

  datatype Keystrokes = Keystrokes(typed: Option<string>, question: string, state: Typing)

  function WhatToType(text: string, state: Typing): Keystrokes {
    var armed := state.armed || Includes(text, Banner);
    var waiting := Keystrokes(None, "", state.(armed := armed));
    var question := PendingPrompt(text);
    if !armed || question == "" then waiting
    else
      var typed := AsAnOperatorWould(question);
      var answeredAfter := |text| - |question|;
      if typed.None? || answeredAfter == state.answeredAfter then waiting
      else Keystrokes(typed, question, Typing(armed, answeredAfter))
  }

  // --------------------------------------------------------------------- a run

  /** One answer, and everything the child had written when it was given. */
  datatype Answer = Answer(raw: string, question: string, typed: string)

  datatype Run = Run(raw: string, state: Typing, answers: seq<Answer>)

  const Fresh := Run("", BeforeTheWizard, [])

  function Heard(r: Run, chunk: string): Run {
    var raw := r.raw + chunk;
    var keys := WhatToType(Written(raw), r.state);
    Run(raw, keys.state,
        if keys.typed.None? then r.answers else r.answers + [Answer(raw, keys.question, keys.typed.value)])
  }

  function After(chunks: seq<string>): Run {
    if chunks == [] then Fresh else Heard(After(chunks[..|chunks| - 1]), chunks[|chunks| - 1])
  }

  /** The driver, fed by the terminal. */
  class Driver {
    var raw: string
    var state: Typing
    var asked: seq<string>
    var typed: seq<string>
    ghost var run: Run

    ghost predicate Valid()
      reads this
    {
      && run.raw == raw && run.state == state
      && |asked| == |typed| == |run.answers|
      && forall i :: 0 <= i < |asked| ==> asked[i] == Trimmed(run.answers[i].question) && typed[i] == run.answers[i].typed
    }

    constructor ()
      ensures Valid() && run == Fresh
    {
      raw, state, asked, typed, run := "", BeforeTheWizard, [], [], Fresh;
    }

    method OnData(chunk: string)
      requires Valid()
      modifies this
      ensures Valid() && run == Heard(old(run), chunk)
    {
      run := Heard(run, chunk);
      raw := raw + chunk;
      var keystrokes := WhatToType(Written(raw), state);
      state := keystrokes.state;
      if keystrokes.typed.None? { return; }
      asked := asked + [Trimmed(keystrokes.question)];
      typed := typed + [keystrokes.typed.value];
    }
  }

  // ------------------------------------------------- how a transcript grows

  /** Nothing is left half written: no cursor sequence waits for its last letter. */
  ghost predicate EndsWhole(s: string) {
    s == "" || s[|s| - 1] == ' '
  }

  lemma {:induction false} WithoutEscapeNothingIsStripped(s: string)
    requires Escape !in s
    ensures Stripped(s) == s
  {
    if s != "" {
      assert s[0] in s && forall c :: c in s[1..] ==> c in s;
      WithoutEscapeNothingIsStripped(s[1..]);
      assert [s[0]] + s[1..] == s;
    }
  }

  lemma {:induction false} ParametersEndSooner(s: string, rest: string, i: nat)
    requires i <= |s| && ParametersEnd(s, i) < |s|
    ensures ParametersEnd(s + rest, i) == ParametersEnd(s, i)
    decreases |s| - i
  {
    if IsParameter(s[i]) { ParametersEndSooner(s, rest, i + 1); }
  }

  /** What has been stripped of a whole beginning does not change as more arrives. */
  lemma CursorStays(s: string, rest: string)
    requires s != "" && EndsWhole(Stripped(s))
    ensures Cursor(s + rest) == Cursor(s)
  {
    if s[0] == Escape && (|s| == 1 || s[1] == '[') {
      if |s| == 1 || ParametersEnd(s, 2) == |s| {
        UnfinishedIsKept(s);
        assert false;
      }
      ParametersEndSooner(s, rest, 2);
    }
  }

  lemma UnfinishedIsKept(s: string)
    requires s != "" && s[0] == Escape && (|s| == 1 || (s[1] == '[' && ParametersEnd(s, 2) == |s|))
    ensures !EndsWhole(Stripped(s))
  {
    assert Escape !in s[1..];
    WithoutEscapeNothingIsStripped(s[1..]);
    assert Stripped(s) == [s[0]] + s[1..] == s;
  }

  lemma {:induction false} StrippedInTwo(s: string, rest: string)
    requires EndsWhole(Stripped(s))
    ensures Stripped(s + rest) == Stripped(s) + Stripped(rest)
    decreases |s|
  {
    if s == "" {
      assert s + rest == rest;
    } else {
      CursorStays(s, rest);
      var n := Cursor(s);
      if n > 0 {
        assert (s + rest)[n..] == s[n..] + rest;
        StrippedInTwo(s[n..], rest);
      } else {
        assert (s + rest)[0] == s[0] && (s + rest)[1..] == s[1..] + rest;
        assert Stripped(s) == [s[0]] + Stripped(s[1..]);
        StrippedInTwo(s[1..], rest);
      }
    }
  }

  lemma {:induction false} UnreturnedEndsTheSame(s: string)
    requires s != ""
    ensures Unreturned(s) != "" && Unreturned(s)[|Unreturned(s)| - 1] == s[|s| - 1]
  {
    if s[0] == '\r' && |s| > 1 && s[1] == '\n' {
      if |s| > 2 { UnreturnedEndsTheSame(s[2..]); }
    } else if |s| > 1 {
      UnreturnedEndsTheSame(s[1..]);
    }
  }

  lemma {:induction false} UnreturnedInTwo(s: string, rest: string)
    requires s == "" || s[|s| - 1] != '\r'
    ensures Unreturned(s + rest) == Unreturned(s) + Unreturned(rest)
  {
    if s == "" {
      assert s + rest == rest;
    } else if s[0] == '\r' && |s| > 1 && s[1] == '\n' {
      assert (s + rest)[2..] == s[2..] + rest;
      UnreturnedInTwo(s[2..], rest);
    } else {
      assert (s + rest)[1..] == s[1..] + rest;
      UnreturnedInTwo(s[1..], rest);
    }
  }

  /**
   * The text does not only grow, a `\r` may become part of a `\n` and half a
   * cursor move may go, but what ends in a space is final: more text follows it.
   */
  lemma WrittenGrows(raw: string, rest: string)
    requires EndsWith(Written(raw), " ")
    ensures Written(raw + rest) == Written(raw) + Written(rest)
  {
    UnreturnedEndsTheSame(Stripped(raw));
    StrippedInTwo(raw, rest);
    UnreturnedInTwo(Stripped(raw), Stripped(rest));
  }

  // ------------------------------------------------------ where a line starts

  function LineStart(text: string): (at: nat)
    ensures at <= |text|
  {
    |text| - |LastLine(text)|
  }

  predicate HasBreak(text: string) {
    exists i :: 0 <= i < |text| && IsBreak(text[i])
  }

  /** More text keeps the line it is on, or starts one further along. */
  lemma {:induction false} LineStartMovesOnlyAtABreak(text: string, more: string)
    ensures if HasBreak(more) then LineStart(text + more) > |text| else LineStart(text + more) == LineStart(text)
    decreases |more|
  {
    if more == "" {
      assert text + more == text;
    } else {
      var n := |more| - 1;
      assert (text + more)[|text + more| - 1] == more[n];
      assert (text + more)[..|text + more| - 1] == text + more[..n];
      if !IsBreak(more[n]) {
        LineStartMovesOnlyAtABreak(text, more[..n]);
        assert HasBreak(more) ==> HasBreak(more[..n]);
        assert HasBreak(more[..n]) ==> HasBreak(more);
      }
    }
  }

  // ------------------------------------------------------------- what a run keeps

  /** Where the line of an answered question starts. */
  function At(a: Answer): int {
    |Written(a.raw)| - |a.question|
  }

  /** The wizard's first line has been on the screen. */
  ghost predicate Spoke(raw: string) {
    exists n :: 0 <= n <= |raw| && Includes(Written(raw[..n]), Banner)
  }

  /** A question the operator would recognise, answered as the operator would, once the wizard has spoken. */
  ghost predicate IsAnswer(a: Answer) {
    && a.question == LastLine(Written(a.raw))
    && EndsWith(a.question, DefaultOffered)
    && AsAnOperatorWould(a.question) == Some(a.typed)
    && Spoke(a.raw)
  }

  ghost predicate Climbs(answers: seq<Answer>) {
    forall i, j :: 0 <= i < j < |answers| ==> At(answers[i]) < At(answers[j])
  }

  ghost predicate Keeps(r: Run) {
    && (forall i :: 0 <= i < |r.answers| ==> IsAnswer(r.answers[i]) && r.answers[i].raw <= r.raw)
    && Climbs(r.answers)
    && r.state.answeredAfter == (if r.answers == [] then -1 else At(r.answers[|r.answers| - 1]))
    && (r.state.armed ==> Spoke(r.raw))
  }

  lemma SpokeStays(raw: string, chunk: string)
    requires Spoke(raw)
    ensures Spoke(raw + chunk)
  {
    var n :| 0 <= n <= |raw| && Includes(Written(raw[..n]), Banner);
    assert (raw + chunk)[..n] == raw[..n];
  }

  /** Since an answer, the line it stands on has only moved by starting another. */
  lemma SinceAnAnswer(a: Answer, raw: string)
    requires IsAnswer(a) && a.raw <= raw
    ensures var more := Written(raw[|a.raw|..]);
            if HasBreak(more) then LineStart(Written(raw)) > At(a) else LineStart(Written(raw)) == At(a)
  {
    var rest := raw[|a.raw|..];
    assert raw == a.raw + rest;
    QuestionEndsTheText(Written(a.raw));
    WrittenGrows(a.raw, rest);
    LineStartMovesOnlyAtABreak(Written(a.raw), Written(rest));
  }

  lemma {:induction false} LastLineEndsTheText(text: string)
    ensures EndsWith(text, LastLine(text))
  {
    if text != "" && !IsBreak(text[|text| - 1]) {
      LastLineEndsTheText(text[..|text| - 1]);
    }
  }

  lemma QuestionEndsTheText(text: string)
    requires EndsWith(LastLine(text), DefaultOffered)
    ensures EndsWith(text, " ") && PendingPrompt(text) == LastLine(text)
  {
    var line := LastLine(text);
    LastLineEndsTheText(text);
    assert line[|line| - 2..] == DefaultOffered;
    assert line[|line| - 1] == line[|line| - 2..][1] == ' ' && line[|line| - 2] == line[|line| - 2..][0] == ']';
    assert text[|text| - |line|..][|line| - 1] == text[|text| - 1];
  }

  /** What is typed, and where it leaves the run. */
  lemma WhatIsTyped(raw: string, state: Typing)
    ensures var keys := WhatToType(Written(raw), state);
            && keys.state.armed == (state.armed || Includes(Written(raw), Banner))
            && (keys.typed.None? ==> keys.state.answeredAfter == state.answeredAfter)
            && (keys.typed.Some? ==>
                  && EndsWith(keys.question, DefaultOffered) && keys.question == LastLine(Written(raw))
                  && AsAnOperatorWould(keys.question) == keys.typed && keys.state.armed
                  && keys.state.answeredAfter == LineStart(Written(raw)) && LineStart(Written(raw)) != state.answeredAfter)
  {
  }

  lemma OneMoreAnswer(answers: seq<Answer>, a: Answer)
    requires Climbs(answers) && (answers != [] ==> At(answers[|answers| - 1]) < At(a))
    ensures Climbs(answers + [a])
  {
    var all := answers + [a];
    forall i, j | 0 <= i < j < |all| ensures At(all[i]) < At(all[j]) {
      if j == |answers| && i < |answers| - 1 {
        assert At(answers[i]) < At(answers[|answers| - 1]);
      }
    }
  }

  lemma SilenceKeeps(r: Run, raw: string, armed: bool)
    requires Keeps(r) && r.raw <= raw && (armed ==> Spoke(raw))
    ensures Keeps(Run(raw, Typing(armed, r.state.answeredAfter), r.answers))
  {
  }

  lemma FurtherAlong(r: Run, a: Answer)
    requires Keeps(r) && r.raw <= a.raw && IsAnswer(a) && At(a) != r.state.answeredAfter && r.answers != []
    ensures At(r.answers[|r.answers| - 1]) < At(a)
  {
    PrefixOfPrefix(r.answers[|r.answers| - 1].raw, r.raw, a.raw);
    SinceAnAnswer(r.answers[|r.answers| - 1], a.raw);
  }

  lemma PrefixOfPrefix(a: string, b: string, c: string)
    requires a <= b <= c
    ensures a <= c
  {
  }

  lemma AnsweringKeeps(r: Run, a: Answer)
    requires Keeps(r) && r.raw <= a.raw && IsAnswer(a) && At(a) != r.state.answeredAfter
    ensures Keeps(Run(a.raw, Typing(true, At(a)), r.answers + [a]))
  {
    if r.answers != [] { FurtherAlong(r, a); }
    OneMoreAnswer(r.answers, a);
    forall i | 0 <= i < |r.answers| ensures r.answers[i].raw <= a.raw {
      PrefixOfPrefix(r.answers[i].raw, r.raw, a.raw);
    }
  }

  /** Armed means the wizard has spoken, now or earlier. */
  lemma ArmedMeansSpoke(r: Run, chunk: string)
    requires r.state.armed ==> Spoke(r.raw)
    requires r.state.armed || Includes(Written(r.raw + chunk), Banner)
    ensures Spoke(r.raw + chunk)
  {
    if r.state.armed {
      SpokeStays(r.raw, chunk);
    } else {
      assert (r.raw + chunk)[..|r.raw + chunk|] == r.raw + chunk;
    }
  }

  /** Hearing a chunk is silence or one answer. */
  lemma HearingKeeps(r: Run, chunk: string)
    requires Keeps(r)
    ensures Keeps(Heard(r, chunk))
  {
    var raw := r.raw + chunk;
    var keys := WhatToType(Written(raw), r.state);
    WhatIsTyped(raw, r.state);
    if keys.state.armed { ArmedMeansSpoke(r, chunk); }
    if keys.typed.None? {
      SilenceKeeps(r, raw, keys.state.armed);
    } else {
      AnsweringKeeps(r, Answer(raw, keys.question, keys.typed.value));
    }
  }

  /**
   * However the transcript is cut into chunks: nothing is typed before the
   * wizard has spoken, everything typed answers a prompt ending in `] `, and
   * each answered line starts further along than the one before.
   */
  lemma {:induction false} EveryRunKeeps(chunks: seq<string>)
    ensures Keeps(After(chunks))
  {
    if chunks != [] {
      EveryRunKeeps(chunks[..|chunks| - 1]);
      HearingKeeps(After(chunks[..|chunks| - 1]), chunks[|chunks| - 1]);
    }
  }

  ghost predicate LastAnswered(r: Run, a: Answer) {
    r.answers != [] && a == r.answers[|r.answers| - 1]
  }

  /** After an answer, the next is typed exactly when a line break has been written since and the line is a prompt. */
  lemma AnsweredAgainExactlyAfterABreak(chunks: seq<string>, a: Answer, rest: string, chunk: string)
    requires LastAnswered(After(chunks), a) && After(chunks).raw + chunk == a.raw + rest
    ensures |Heard(After(chunks), chunk).answers| > |After(chunks).answers| <==>
              AsAnOperatorWould(LastLine(Written(a.raw + rest))).Some? && HasBreak(Written(rest))
  {
    EveryRunKeeps(chunks);
    AnsweredMeansArmed(chunks);
    assert (a.raw + rest)[|a.raw|..] == rest;
    SinceAnAnswer(a, a.raw + rest);
    AnswersExactly(After(chunks), chunk);
  }

  lemma AnswersExactly(r: Run, chunk: string)
    requires r.state.armed
    ensures |Heard(r, chunk).answers| > |r.answers| <==>
              && AsAnOperatorWould(LastLine(Written(r.raw + chunk))).Some?
              && LineStart(Written(r.raw + chunk)) != r.state.answeredAfter
  {
    var text := Written(r.raw + chunk);
    if AsAnOperatorWould(LastLine(text)).Some? { QuestionEndsTheText(text); }
  }

  lemma {:induction false} AnsweredMeansArmed(chunks: seq<string>)
    ensures After(chunks).answers != [] ==> After(chunks).state.armed
  {
    if chunks != [] {
      var before := After(chunks[..|chunks| - 1]);
      AnsweredMeansArmed(chunks[..|chunks| - 1]);
      WhatIsTyped(before.raw + chunks[|chunks| - 1], before.state);
    }
  }

  /** Every answer is one line, ended as a person ends it. */
  lemma EveryAnswerIsOneLine(chunks: seq<string>, i: nat)
    requires i < |After(chunks).answers|
    ensures var typed := After(chunks).answers[i].typed;
            typed != "" && typed[|typed| - 1] == '\r' && !HasBreak(typed[..|typed| - 1])
  {
    EveryRunKeeps(chunks);
    assert IsAnswer(After(chunks).answers[i]);
    AnswersAreLines(After(chunks).answers[i].question);
  }

  lemma AnswersAreLines(prompt: string)
    requires AsAnOperatorWould(prompt).Some?
    ensures var typed := AsAnOperatorWould(prompt).value;
            typed != "" && typed[|typed| - 1] == '\r' && !HasBreak(typed[..|typed| - 1])
  {
  }

  // ------------------------------------------- a redraw that is answered again

  lemma {:induction false} NothingToUnreturn(s: string)
    requires '\n' !in s
    ensures Unreturned(s) == s
  {
    if s != "" {
      assert forall c :: c in s[1..] ==> c in s;
      NothingToUnreturn(s[1..]);
      assert [s[0]] + s[1..] == s;
    }
  }

  lemma {:induction false} LastLineAfterABreak(text: string, line: string)
    requires !HasBreak(line) && (text == "" || IsBreak(text[|text| - 1]))
    ensures LastLine(text + line) == line
    decreases |line|
  {
    if line == "" {
      assert text + line == text;
    } else {
      var n := |line| - 1;
      assert (text + line)[|text + line| - 1] == line[n] && (text + line)[..|text + line| - 1] == text + line[..n];
      LastLineAfterABreak(text, line[..n]);
    }
  }

  lemma WrittenReturn(question: string)
    requires Escape !in question && !HasBreak(question)
    ensures Written("\r" + question) == "\r" + question
  {
    var chunk := "\r" + question;
    WithoutEscapeNothingIsStripped(chunk);
    NothingToUnreturn(chunk);
  }

  lemma LineAfterAReturn(raw: string, question: string)
    requires EndsWith(Written(raw), " ") && Escape !in question && !HasBreak(question)
    ensures HasBreak(Written("\r" + question)) && LastLine(Written(raw + ("\r" + question))) == question
  {
    var text, chunk := Written(raw), "\r" + question;
    WrittenReturn(question);
    assert IsBreak(chunk[0]);
    WrittenGrows(raw, chunk);
    assert text + chunk == text + "\r" + question;
    LastLineAfterABreak(text + "\r", question);
  }

  /** A question redrawn by going back to the start of its line, and not by moving the cursor, is answered twice. */
  lemma ARedrawByReturnIsAnsweredAgain(chunks: seq<string>, a: Answer)
    requires LastAnswered(After(chunks), a) && a.raw == After(chunks).raw && Escape !in a.question
    ensures |Heard(After(chunks), "\r" + a.question).answers| > |After(chunks).answers|
  {
    var chunk := "\r" + a.question;
    EveryRunKeeps(chunks);
    assert IsAnswer(a);
    LineHasNoBreak(Written(a.raw));
    QuestionEndsTheText(Written(a.raw));
    LineAfterAReturn(a.raw, a.question);
    AnsweredAgainExactlyAfterABreak(chunks, a, chunk, chunk);
  }

  lemma {:induction false} LineHasNoBreak(text: string)
    ensures !HasBreak(LastLine(text))
  {
    if text != "" && !IsBreak(text[|text| - 1]) {
      LineHasNoBreak(text[..|text| - 1]);
    }
  }

  // ------------------------------------------------- which answer, and exactly when

  /** A question whose default has arrived. */
  predicate IsAsked(line: string) {
    |line| >= 2 && line[|line| - 2] == ']' && line[|line| - 1] == ' '
  }

  /** What each question is answered with: the three named ones, an offer to install, and any other. */
  ghost predicate Fits(question: string, typed: string) {
    var login := "Log " <= question && exists i :: 0 <= i <= |question| && " in now? " <= question[i..];
    var save, another := "Save this plan to a file?" <= question, "Try another path?" <= question;
    var install := |question| >= 10 && question[|question| - 10..] == "[install] ";
    && (login ==> typed == "n\r")
    && (save ==> typed == "y\r")
    && (another ==> typed == "n\r")
    && (install && !login && !save && !another ==> typed == "skip\r")
    && (!install && !login && !save && !another ==> typed == "\r")
  }

  lemma AnsweredAsAsked(question: string)
    ensures AsAnOperatorWould(question).Some? <==> IsAsked(question)
    ensures AsAnOperatorWould(question).Some? ==> Fits(question, AsAnOperatorWould(question).value)
  {
    if |question| >= 2 {
      assert question[|question| - 2..] == [question[|question| - 2], question[|question| - 1]];
    }
    assert "Log "[0] == 'L' && SaveQuestion[0] == 'S' && AnotherPathQuestion[0] == 'T';
  }

  /** The wizard's first line is on the screen once these chunks have arrived. */
  predicate Speaks(chunks: seq<string>) {
    Includes(Written(After(chunks).raw), "agentplex setup")
  }

  ghost function Speaking(): seq<string> -> bool {
    (chunks: seq<string>) => Speaks(chunks)
  }

  ghost predicate PrefixAt<T(!new)>(p: seq<T> -> bool, s: seq<T>, n: nat) {
    n <= |s| && p(s[..n])
  }

  /** `p` holds of some beginning of `s`. */
  ghost predicate OfAPrefix<T(!new)>(p: seq<T> -> bool, s: seq<T>) {
    exists n: nat :: PrefixAt(p, s, n)
  }

  lemma OfAPrefixWithOneMore<T(!new)>(p: seq<T> -> bool, s: seq<T>, x: T)
    ensures OfAPrefix(p, s + [x]) <==> OfAPrefix(p, s) || p(s + [x])
  {
    var all := s + [x];
    assert all[..|all|] == all;
    assert PrefixAt(p, all, |all|) <==> p(all);
    forall n: nat | n <= |s| ensures PrefixAt(p, all, n) <==> PrefixAt(p, s, n) {
      assert all[..n] == s[..n];
    }
    if OfAPrefix(p, s) {
      var n: nat :| PrefixAt(p, s, n);
      assert PrefixAt(p, all, n);
    }
  }

  /** The wizard's first line was on the screen when one of these chunks had just arrived. */
  ghost predicate Seen(chunks: seq<string>) {
    OfAPrefix(Speaking(), chunks)
  }

  lemma NothingIsSeenAtFirst()
    ensures !Seen([])
  {
    assert Written("") == "" && !Includes("", "agentplex setup") && !Speaks([]);
    var none: seq<string> := [];
    assert none[..0] == none && forall n: nat :: PrefixAt(Speaking(), none, n) ==> n == 0;
  }

  lemma ArmedOnceItSpeaks(before: seq<string>, chunk: string)
    ensures After(before + [chunk]).state.armed <==> After(before).state.armed || Speaks(before + [chunk])
  {
    var all := before + [chunk];
    assert all[..|all| - 1] == before && all[|all| - 1] == chunk;
    WhatIsTyped(After(before).raw + chunk, After(before).state);
  }

  lemma {:induction false} ArmedExactlyWhenSeen(chunks: seq<string>)
    ensures After(chunks).state.armed <==> Seen(chunks)
  {
    if chunks == [] {
      NothingIsSeenAtFirst();
    } else {
      var before, last := chunks[..|chunks| - 1], chunks[|chunks| - 1];
      assert before + [last] == chunks;
      ArmedExactlyWhenSeen(before);
      ArmedOnceItSpeaks(before, last);
      OfAPrefixWithOneMore(Speaking(), before, last);
    }
  }

  /** A line break has come since the last answer, if there has been one. */
  ghost predicate Moved(r: Run, raw: string)
    requires r.answers != [] ==> |r.answers[|r.answers| - 1].raw| <= |raw|
  {
    r.answers == [] || HasBreak(Written(raw[|r.answers[|r.answers| - 1].raw|..]))
  }

  lemma HeardOnce(r: Run, chunk: string)
    ensures var raw := r.raw + chunk; var question := LastLine(Written(raw));
            Heard(r, chunk).answers == r.answers ||
            (IsAsked(question) && exists typed :: Fits(question, typed) && Heard(r, chunk).answers == r.answers + [Answer(raw, question, typed)])
  {
    WhatIsTyped(r.raw + chunk, r.state);
    AnsweredAsAsked(LastLine(Written(r.raw + chunk)));
  }

  /**
   * From the first chunk on, an answer is typed exactly when the wizard has
   * spoken, its question has arrived whole, and a line break has come since the
   * answer before, and it is the answer that question gets.
   */
  lemma AnswersExactlyWhenAsked(chunks: seq<string>, chunk: string)
    ensures var r := After(chunks); var raw := r.raw + chunk; var question := LastLine(Written(raw));
            && (r.answers != [] ==> |r.answers[|r.answers| - 1].raw| <= |raw|)
            && if Seen(chunks + [chunk]) && IsAsked(question) && Moved(r, raw)
               then exists typed :: Fits(question, typed) && Heard(r, chunk).answers == r.answers + [Answer(raw, question, typed)]
               else Heard(r, chunk).answers == r.answers
  {
    var r, all := After(chunks), chunks + [chunk];
    var raw := r.raw + chunk;
    assert all[..|all| - 1] == chunks;
    EveryRunKeeps(chunks);
    ArmedExactlyWhenSeen(all);
    AnsweredAsAsked(LastLine(Written(raw)));
    HeardOnce(r, chunk);
    WhatIsTyped(raw, r.state);
    if Heard(r, chunk).state.armed {
      ArmedAnswersExactly(r, chunk);
      if r.answers != [] {
        SinceAnAnswer(r.answers[|r.answers| - 1], raw);
      }
    }
  }

  lemma ArmedAnswersExactly(r: Run, chunk: string)
    requires Heard(r, chunk).state.armed
    ensures |Heard(r, chunk).answers| > |r.answers| <==>
              && AsAnOperatorWould(LastLine(Written(r.raw + chunk))).Some?
              && LineStart(Written(r.raw + chunk)) != r.state.answeredAfter
  {
    var text := Written(r.raw + chunk);
    if AsAnOperatorWould(LastLine(text)).Some? { QuestionEndsTheText(text); }
  }

  lemma {:induction false} LineStartsAfterABreak(text: string)
    ensures LineStart(text) == 0 || text[LineStart(text) - 1] == '\r' || text[LineStart(text) - 1] == '\n'
  {
    if text != "" && !IsBreak(text[|text| - 1]) {
      var front := text[..|text| - 1];
      LineStartsAfterABreak(front);
      assert LastLine(text) == LastLine(front) + [text[|text| - 1]];
      assert LineStart(text) == LineStart(front);
      assert LineStart(front) > 0 ==> text[LineStart(front) - 1] == front[LineStart(front) - 1];
    }
  }

  /** The pending line is what follows the last return or newline. */
  lemma LastLineFollowsTheLastBreak(text: string)
    ensures text == text[..LineStart(text)] + LastLine(text)
    ensures LineStart(text) == 0 || text[LineStart(text) - 1] == '\r' || text[LineStart(text) - 1] == '\n'
    ensures forall i :: 0 <= i < |LastLine(text)| ==> LastLine(text)[i] != '\r' && LastLine(text)[i] != '\n'
  {
    var line := LastLine(text);
    LastLineEndsTheText(text);
    LineHasNoBreak(text);
    LineStartsAfterABreak(text);
    assert text[LineStart(text)..] == line && text == text[..LineStart(text)] + text[LineStart(text)..];
    assert forall i :: 0 <= i < |line| ==> !IsBreak(line[i]);
  }

  // ------------------------------------------------------ what a person reads of it

  lemma {:induction false} PlainFront(a: string, b: string)
    requires Escape !in a
    ensures Stripped(a + b) == a + Stripped(b)
  {
    if a == "" {
      assert a + b == b;
    } else {
      assert (a + b)[0] == a[0] && (a + b)[1..] == a[1..] + b;
      assert a[0] in a && forall c :: c in a[1..] ==> c in a;
      PlainFront(a[1..], b);
      assert [a[0]] + (a[1..] + Stripped(b)) == a + Stripped(b);
    }
  }

  lemma {:induction false} ParametersEndAtTheLetter(s: string, i: nat, end: nat)
    requires i <= end < |s| && !IsParameter(s[end]) && forall k :: i <= k < end ==> IsParameter(s[k])
    ensures ParametersEnd(s, i) == end
    decreases end - i
  {
    if i < end { ParametersEndAtTheLetter(s, i + 1, end); }
  }

  /** A cursor move: an escape, a bracket, digits, semicolons and question marks, and a letter. */
  ghost predicate IsCursorMove(move: string) {
    && |move| >= 3 && move[0] == '\U{1B}' && move[1] == '['
    && (forall k :: 2 <= k < |move| - 1 ==> '0' <= move[k] <= '9' || move[k] == ';' || move[k] == '?')
    && var letter := move[|move| - 1]; 'A' <= letter <= 'Z' || 'a' <= letter <= 'z'
  }

  /** It is not read: the text is as if it had not been written. */
  lemma ACursorMoveIsNotRead(a: string, move: string, b: string)
    requires '\U{1B}' !in a && IsCursorMove(move)
    ensures Written(a + move + b) == Written(a + b)
  {
    var s := move + b;
    ParametersEndAtTheLetter(s, 2, |move| - 1);
    assert Cursor(s) == |move| && s[|move|..] == b;
    assert a + move + b == a + s;
    PlainFront(a, s);
    PlainFront(a, b);
  }

  lemma {:induction false} UnreturnedAtABreak(a: string, b: string)
    ensures Unreturned(a + "\r\n" + b) == Unreturned(a) + "\n" + Unreturned(b)
    decreases |a|
  {
    var s := a + "\r\n" + b;
    if a == "" {
      assert s[0] == '\r' && s[1] == '\n' && s[2..] == b;
    } else if a[0] == '\r' && |a| > 1 && a[1] == '\n' {
      assert s[0] == '\r' && s[1] == '\n' && s[2..] == a[2..] + "\r\n" + b;
      UnreturnedAtABreak(a[2..], b);
    } else {
      assert s[0] == a[0] && s[1] == (a + "\r\n")[1] && s[1..] == a[1..] + "\r\n" + b;
      UnreturnedAtABreak(a[1..], b);
      assert [a[0]] + (Unreturned(a[1..]) + "\n" + Unreturned(b)) == [a[0]] + Unreturned(a[1..]) + "\n" + Unreturned(b);
    }
  }

  /** A line ending is read as one break, and every other return is left where it is. */
  lemma ALineEndingIsOneBreak(a: string, b: string)
    requires '\U{1B}' !in a && '\U{1B}' !in b
    ensures Written(a + "\r\n" + b) == Written(a) + "\n" + Written(b)
    ensures '\n' !in a ==> Written(a) == a
  {
    WithoutEscapeNothingIsStripped(a);
    WithoutEscapeNothingIsStripped(b);
    WithoutEscapeNothingIsStripped(a + "\r\n" + b);
    UnreturnedAtABreak(a, b);
    if '\n' !in a { NothingToUnreturn(a); }
  }

  predicate AllWhite(s: string) {
    forall i :: 0 <= i < |s| ==> IsWhite(s[i])
  }

  lemma OneMoreWhite(a: string, c: char)
    requires AllWhite(a) && IsWhite(c)
    ensures AllWhite([c] + a) && AllWhite(a + [c])
  {
  }

  lemma OneMoreAround(s: string, a: string, m: string, b: string)
    ensures s != "" && s[1..] == a + m + b ==> s == [s[0]] + a + m + b
    ensures s != "" && s[..|s| - 1] == a + m + b ==> s == a + m + (b + [s[|s| - 1]])
  {
    if s != "" {
      assert s == [s[0]] + s[1..] == s[..|s| - 1] + [s[|s| - 1]];
    }
  }

  /** What is recorded as asked is the question, less the white space around it. */
  lemma {:induction false} TrimmedIsWithin(s: string) returns (before: string, after: string)
    ensures s == before + Trimmed(s) + after && AllWhite(before) && AllWhite(after)
    decreases |s|
  {
    if s == "" || (!IsWhite(s[0]) && !IsWhite(s[|s| - 1])) {
      before, after := "", "";
      assert s == "" + s + "";
    } else if IsWhite(s[0]) {
      before, after := TrimmedIsWithin(s[1..]);
      OneMoreWhite(before, s[0]);
      OneMoreAround(s, before, Trimmed(s), after);
      before := [s[0]] + before;
    } else {
      before, after := TrimmedIsWithin(s[..|s| - 1]);
      OneMoreWhite(after, s[|s| - 1]);
      OneMoreAround(s, before, Trimmed(s), after);
      after := after + [s[|s| - 1]];
    }
  }
}
