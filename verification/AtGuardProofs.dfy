/** No command trips two AT guards, so table order, blanks and letter case cannot change the answer. */
module AtGuardProofs {
  import opened Wrappers
  import opened Texts
  import opened AtGuards

  // ---- One assignment, taken apart ----

  /** What follows `word =` in `s`, blanks skipped, or None when `s` is not such an assignment. */
  function Assigned(word: string, s: string): Option<string> {
    if !StartsWith(word, s) then None
    else
      var sign := SkipSpaces(s[|word|..]);
      if StartsWith("=", sign) then Some(SkipSpaces(sign[1..])) else None
  }

  lemma AssignMatches(word: string, tail: seq<Piece>, s: string)
    requires Solid(tail)
    ensures Matches(Assign(word, tail), s) <==> Assigned(word, s).Some? && Matches(tail, Assigned(word, s).value)
  {
    var afterSign := [Spaces] + tail;
    var fromSign := [Lit("=")] + afterSign;
    assert Assign(word, tail) == [Lit(word)] + ([Spaces] + fromSign);
    LitStep(word, [Spaces] + fromSign, s);
    if StartsWith(word, s) {
      var r := s[|word|..];
      LitIsSolid("=", afterSign);
      SpacesStep(fromSign, r);
      LitStep("=", afterSign, SkipSpaces(r));
      if StartsWith("=", SkipSpaces(r)) {
        SpacesStep(tail, SkipSpaces(r)[1..]);
      }
    }
  }

  lemma OneOfIsSolid(words: seq<string>, rest: seq<Piece>)
    requires forall w <- words :: w != "" && !IsSpace(w[0])
    ensures Solid([OneOf(words)] + rest)
  {
    forall s | Matches([OneOf(words)] + rest, s) ensures s == "" || !IsSpace(s[0]) {
      OneOfStep(words, rest, s);
    }
  }

  // ---- The two +CFUN shapes ----

  /** `digits , 1`, blanks allowed between. */
  predicate SaysReset(t: string) {
    && t != "" && IsDigit(t[0])
    && var u := SkipSpaces(SkipDigits(t));
       Closes("1", u)
  }

  /** 0, 4 or 7, then nothing or `, 0`, blanks allowed between. */
  predicate SaysOff(t: string) {
    && t != "" && (t[0] == '0' || t[0] == '4' || t[0] == '7')
    && var u := SkipSpaces(t[1..]);
       u == "" || Closes("0", u)
  }

  lemma EndIsSolid()
    ensures Solid([End])
  {
    forall s | Matches([End], s) ensures s == "" {
      EndStep([], s);
    }
  }

  /** A comma, the digit, and the end, blanks allowed between. */
  predicate Closes(digit: string, u: string) {
    StartsWith(",", u) && var v := SkipSpaces(u[1..]); StartsWith(digit, v) && SkipSpaces(v[|digit|..]) == ""
  }

  lemma DigitThenEnd(digit: string, v: string)
    ensures Matches([Lit(digit)] + ([Spaces] + [End]), v) <==> StartsWith(digit, v) && SkipSpaces(v[|digit|..]) == ""
  {
    LitStep(digit, [Spaces] + [End], v);
    if StartsWith(digit, v) {
      EndIsSolid();
      SpacesStep([End], v[|digit|..]);
      EndStep([], SkipSpaces(v[|digit|..]));
    }
  }

  lemma Closing(digit: string, u: string)
    requires digit != "" && !IsSpace(digit[0])
    ensures Matches([Lit(","), Spaces, Lit(digit), Spaces, End], u) <==> Closes(digit, u)
  {
    var d := [Lit(digit)] + ([Spaces] + [End]);
    assert [Lit(","), Spaces, Lit(digit), Spaces, End] == [Lit(",")] + ([Spaces] + d);
    LitStep(",", [Spaces] + d, u);
    if StartsWith(",", u) {
      LitIsSolid(digit, [Spaces] + [End]);
      SpacesStep(d, u[1..]);
      DigitThenEnd(digit, SkipSpaces(u[1..]));
    }
  }

  lemma ClosingIsSolid(digit: string)
    ensures Solid([Lit(","), Spaces, Lit(digit), Spaces, End])
  {
    var rest := [Spaces, Lit(digit), Spaces, End];
    assert [Lit(","), Spaces, Lit(digit), Spaces, End] == [Lit(",")] + rest;
    LitIsSolid(",", rest);
  }

  lemma CommaEndsTheDigits(c: seq<Piece>)
    requires c == [Lit(","), Spaces, Lit("1"), Spaces, End]
    ensures NoDigitFirst([Spaces] + c)
  {
    ClosingIsSolid("1");
    forall s | Matches([Spaces] + c, s) ensures s == "" || !IsDigit(s[0]) {
      SpacesStep(c, s);
      Closing("1", SkipSpaces(s));
    }
  }

  lemma ResetTailMatches(t: string)
    ensures Matches(RESET_TAIL, t) <==> SaysReset(t)
  {
    var c := [Lit(","), Spaces, Lit("1"), Spaces, End];
    assert RESET_TAIL == [Digits] + ([Spaces] + c);
    ClosingIsSolid("1");
    CommaEndsTheDigits(c);
    DigitsStep([Spaces] + c, t);
    if t != "" && IsDigit(t[0]) {
      SpacesStep(c, SkipDigits(t));
      Closing("1", SkipSpaces(SkipDigits(t)));
    }
  }

  lemma ResetTailIsSolid()
    ensures Solid(RESET_TAIL)
  {
    forall s | Matches(RESET_TAIL, s) ensures s == "" || !IsSpace(s[0]) {
      ResetTailMatches(s);
    }
  }

  lemma ClosingChoice(u: string)
    ensures Matches([Either(ZERO_TAIL, []), End], u) <==>
            u == "" || Closes("0", u)
  {
    assert [Either(ZERO_TAIL, []), End] == [Either(ZERO_TAIL, [])] + [End];
    EitherStep(ZERO_TAIL, [], [End], u);
    assert ZERO_TAIL + [End] == [Lit(","), Spaces, Lit("0"), Spaces, End];
    assert [] + [End] == [End] + [];
    Closing("0", u);
    EndStep([], u);
  }

  lemma OneCharWord(word: string, t: string)
    requires |word| == 1 && IsDigit(word[0])
    ensures StartsWith(word, t) <==> t != "" && t[0] == word[0]
  {
  }

  lemma OffDigit(rest: seq<Piece>, t: string)
    ensures Matches([OneOf(["0", "4", "7"])] + rest, t) <==>
            t != "" && (t[0] == '0' || t[0] == '4' || t[0] == '7') && Matches(rest, t[1..])
  {
    var words := ["0", "4", "7"];
    OneOfStep(words, rest, t);
    forall w | w in words ensures |w| == 1 && (StartsWith(w, t) <==> t != "" && t[0] == w[0]) {
      OneCharWord(w, t);
    }
    assert words[0] in words && words[1] in words && words[2] in words;
  }

  lemma OffTailMatches(t: string)
    ensures Matches(OFF_TAIL, t) <==> SaysOff(t)
  {
    var c := [Either(ZERO_TAIL, []), End];
    assert OFF_TAIL == [OneOf(["0", "4", "7"])] + ([Spaces] + c);
    OffDigit([Spaces] + c, t);
    forall s | Matches(c, s) ensures s == "" || !IsSpace(s[0]) {
      ClosingChoice(s);
    }
    if t != "" {
      SpacesStep(c, t[1..]);
      ClosingChoice(SkipSpaces(t[1..]));
    }
  }

  lemma OffTailIsSolid()
    ensures Solid(OFF_TAIL)
  {
    forall s | Matches(OFF_TAIL, s) ensures s == "" || !IsSpace(s[0]) {
      OffTailMatches(s);
    }
  }

  /** A reset names 1 after the comma, switching off names 0 or no comma at all. */
  lemma ResetIsNotOff(t: string)
    ensures !(SaysReset(t) && SaysOff(t))
  {
    if SaysReset(t) {
      var d := t[1..];
      assert SkipDigits(t) == SkipDigits(d);
      if d != "" && IsDigit(d[0]) {
        assert SkipSpaces(d) == d;
        assert !StartsWith(",", d);
      } else {
        assert SkipDigits(d) == d;
        var v := SkipSpaces(SkipSpaces(d)[1..]);
        assert StartsWith("1", v);
        OneCharWord("1", v);
        OneCharWord("0", v);
      }
    }
  }

  /** The whole of what `+CFUN` does here: one guard for a reset, one for switching off, and never both. */
  lemma CfunShapes(typed: string)
    ensures Matches(CFUN_RESET.pattern, typed) <==>
              Assigned("at+cfun", typed).Some? && SaysReset(Assigned("at+cfun", typed).value)
    ensures Matches(CFUN_OFF.pattern, typed) <==>
              Assigned("at+cfun", typed).Some? && SaysOff(Assigned("at+cfun", typed).value)
    ensures !(Matches(CFUN_RESET.pattern, typed) && Matches(CFUN_OFF.pattern, typed))
  {
    ResetTailIsSolid();
    OffTailIsSolid();
    AssignMatches("at+cfun", RESET_TAIL, typed);
    AssignMatches("at+cfun", OFF_TAIL, typed);
    if Assigned("at+cfun", typed).Some? {
      ResetTailMatches(Assigned("at+cfun", typed).value);
      OffTailMatches(Assigned("at+cfun", typed).value);
      ResetIsNotOff(Assigned("at+cfun", typed).value);
    }
  }

  // ---- Which command a guard is about ----

  /** The four letters after `AT+`. */
  function Tag(s: string): string {
    if |s| < 7 then "" else Fold(s[3..7])
  }

  const TAGS: seq<set<string>> :=
    [{"qcfg"}, {"cfun"}, {"cfun"}, {"cops"}, {"crsm"}, {"csim"}, {"ccho", "cgla", "cchc"}, {"qprt"}]

  lemma TagOfWord(word: string, s: string)
    requires |word| >= 7 && StartsWith(word, s)
    ensures Tag(s) == word[3..7]
  {
    assert forall i | 0 <= i < 4 :: s[3..7][i] == s[i + 3] && word[3..7][i] == word[i + 3];
  }

  lemma HeadWord(pattern: seq<Piece>, word: string, s: string)
    requires |word| >= 7 && pattern != [] && pattern[0] == Lit(word) && Matches(pattern, s)
    ensures Tag(s) == word[3..7]
  {
    TagOfWord(word, s);
  }

  lemma FourLetters(w: string, s: string)
    requires |w| == 4 && |s| >= 3 && StartsWith(w, s[3..])
    ensures Tag(s) == w
  {
    assert forall i | 0 <= i < 4 :: s[3..7][i] == s[3..][i];
  }

  lemma ChannelWord(words: seq<string>, s: string) returns (w: string)
    requires Matches([Lit("at+")] + ([OneOf(words)] + [Edge]), s)
    ensures w in words && |s| >= 3 && StartsWith(w, s[3..])
  {
    LitStep("at+", [OneOf(words)] + [Edge], s);
    OneOfStep(words, [Edge], s[3..]);
    w :| w in words && StartsWith(w, s[3..]);
  }

  lemma ChannelTag(s: string)
    requires Matches(LOGICAL_CHANNEL.pattern, s)
    ensures Tag(s) in {"ccho", "cgla", "cchc"}
  {
    var words := ["ccho", "cgla", "cchc"];
    assert LOGICAL_CHANNEL.pattern == [Lit("at+")] + ([OneOf(words)] + [Edge]);
    var w := ChannelWord(words, s);
    FourLetters(w, s);
  }

  /** The word the other guards' patterns begin with. */
  function WordOf(i: nat): string {
    if i == 0 then "at+qcfg" else if i <= 2 then "at+cfun" else if i == 3 then "at+cops"
    else if i == 4 then "at+crsm" else if i == 5 then "at+csim" else "at+qprtpara"
  }

  lemma WordTag(i: nat)
    requires i < 8 && i != 6
    ensures |WordOf(i)| >= 7 && WordOf(i)[3..7] in TAGS[i]
  {
    assert WordOf(i)[3..7] == if i == 0 then "qcfg" else if i <= 2 then "cfun" else if i == 3 then "cops"
                              else if i == 4 then "crsm" else if i == 5 then "csim" else "qprt";
  }

  lemma GuardTag(i: nat, s: string)
    requires i < |AT_COMMAND_GUARDS| && Matches(AT_COMMAND_GUARDS[i].pattern, s)
    ensures Tag(s) in TAGS[i]
  {
    if i == 6 {
      ChannelTag(s);
    } else {
      WordTag(i);
      HeadWord(AT_COMMAND_GUARDS[i].pattern, WordOf(i), s);
    }
  }

  lemma TagsAreDisjoint(i: nat, j: nat)
    requires i < j < 8 && !(i == 1 && j == 2)
    ensures TAGS[i] !! TAGS[j]
  {
  }

  /** No text trips two of the eight guards. */
  lemma GuardsAreDisjoint(i: nat, j: nat, typed: string)
    requires i < j < |AT_COMMAND_GUARDS|
    ensures !(Matches(AT_COMMAND_GUARDS[i].pattern, typed) && Matches(AT_COMMAND_GUARDS[j].pattern, typed))
  {
    if i == 1 && j == 2 {
      CfunShapes(typed);
    } else if Matches(AT_COMMAND_GUARDS[i].pattern, typed) && Matches(AT_COMMAND_GUARDS[j].pattern, typed) {
      GuardTag(i, typed);
      GuardTag(j, typed);
      TagsAreDisjoint(i, j);
    }
  }

  lemma {:induction false} FirstIsAnyMatch(guards: seq<AtGuard>, typed: string, g: AtGuard)
    requires forall x, y | x in guards && y in guards && Matches(x.pattern, typed) && Matches(y.pattern, typed) ::
               x == y
    ensures FirstGuard(guards, typed) == Some(g) <==> g in guards && Matches(g.pattern, typed)
  {
    if guards != [] {
      FirstIsAnyMatch(guards[1..], typed, g);
      assert guards == [guards[0]] + guards[1..];
    }
  }

  lemma PlaceIn(guards: seq<AtGuard>, x: AtGuard) returns (i: nat)
    requires x in guards
    ensures i < |guards| && guards[i] == x
  {
    i :| i < |guards| && guards[i] == x;
  }

  lemma OnlyOneMatches(x: AtGuard, y: AtGuard, typed: string)
    requires x in AT_COMMAND_GUARDS && y in AT_COMMAND_GUARDS
    requires Matches(x.pattern, typed) && Matches(y.pattern, typed)
    ensures x == y
  {
    var i := PlaceIn(AT_COMMAND_GUARDS, x);
    var j := PlaceIn(AT_COMMAND_GUARDS, y);
    if i < j { GuardsAreDisjoint(i, j, typed); }
    if j < i { GuardsAreDisjoint(j, i, typed); }
  }

  /** In whatever order the table is listed, the answer is the one guard whose pattern matches, if any. */
  lemma AnswerIsTheOneMatch(table: seq<AtGuard>, command: string, g: AtGuard)
    requires forall x :: x in table <==> x in AT_COMMAND_GUARDS
    ensures FirstGuard(table, Trim(command)) == Some(g) <==> g in AT_COMMAND_GUARDS && Matches(g.pattern, Trim(command))
  {
    var typed := Trim(command);
    forall x, y | x in table && y in table && Matches(x.pattern, typed) && Matches(y.pattern, typed) ensures x == y {
      OnlyOneMatches(x, y, typed);
    }
    FirstIsAnyMatch(table, typed, g);
  }

  // ---- Blanks and letter case ----

  lemma LowerKeepsKind(c: char)
    ensures IsSpace(Lower(c)) <==> IsSpace(c)
    ensures IsWordChar(Lower(c)) <==> IsWordChar(c)
  {
  }

  lemma FoldKeepsSpaces(s: string, n: nat)
    requires n <= |s|
    ensures AllSpaces(Fold(s), n) <==> AllSpaces(s, n)
  {
    forall i | 0 <= i < |s| ensures IsSpace(Fold(s)[i]) <==> IsSpace(s[i]) {
      LowerKeepsKind(s[i]);
    }
  }

  lemma FoldKeepsStart(word: string, s: string)
    ensures StartsWith(word, Fold(s)) <==> StartsWith(word, s)
  {
    assert forall i | 0 <= i < |s| :: Lower(Fold(s)[i]) == Lower(s[i]);
  }

  /** Letter case is invisible to every pattern. */
  lemma {:induction false} CaseIsInvisible(pieces: seq<Piece>, s: string)
    ensures Matches(pieces, Fold(s)) <==> Matches(pieces, s)
    decreases Weight(pieces), 1
  {
    if pieces != [] {
      var rest := pieces[1..];
      match pieces[0]
      case Lit(word) => CaseAfter(word, rest, s);
      case Spaces =>
        forall n: nat | n <= |s|
          ensures AllSpaces(Fold(s), n) && Matches(rest, Fold(s)[n..]) <==> AllSpaces(s, n) && Matches(rest, s[n..])
        {
          FoldTail(s, n);
          FoldKeepsSpaces(s, n);
          CaseIsInvisible(rest, s[n..]);
        }
      case Digits =>
        forall n: nat | n <= |s|
          ensures AllDigits(Fold(s), n) && Matches(rest, Fold(s)[n..]) <==> AllDigits(s, n) && Matches(rest, s[n..])
        {
          FoldTail(s, n);
          FoldKeepsDigits(s, n);
          CaseIsInvisible(rest, s[n..]);
        }
      case OneOf(words) =>
        forall w | w in words
          ensures StartsWith(w, Fold(s)) && Matches(rest, Fold(s)[|w|..]) <==>
                    StartsWith(w, s) && Matches(rest, s[|w|..])
        {
          CaseAfter(w, rest, s);
        }
      case Either(left, right) =>
        WeightOfConcat(left, rest);
        WeightOfConcat(right, rest);
        CaseIsInvisible(left + rest, s);
        CaseIsInvisible(right + rest, s);
      case End => CaseIsInvisible(rest, s);
      case Edge =>
        if s != "" { LowerKeepsKind(s[0]); }
        CaseIsInvisible(rest, s);
    }
  }

  lemma {:induction false} CaseAfter(word: string, rest: seq<Piece>, s: string)
    ensures StartsWith(word, Fold(s)) && Matches(rest, Fold(s)[|word|..]) <==>
              StartsWith(word, s) && Matches(rest, s[|word|..])
    decreases Weight(rest) + 1, 0
  {
    FoldKeepsStart(word, s);
    if StartsWith(word, s) {
      FoldTail(s, |word|);
      CaseIsInvisible(rest, s[|word|..]);
    }
  }

  lemma {:induction false} GuardIgnoresCase(guards: seq<AtGuard>, s: string, u: string)
    requires Fold(s) == Fold(u)
    ensures FirstGuard(guards, s) == FirstGuard(guards, u)
  {
    if guards != [] {
      CaseIsInvisible(guards[0].pattern, s);
      CaseIsInvisible(guards[0].pattern, u);
      GuardIgnoresCase(guards[1..], s, u);
    }
  }

  /** Blanks around a command and the case of its letters do not change what is asked. */
  lemma BlanksAndCaseDoNotMatter(before: string, command: string, after: string, retyped: string)
    requires Blank(before) && Blank(after) && Fold(retyped) == Fold(command)
    ensures AtCommandGuard(before + retyped + after) == AtCommandGuard(command)
  {
    TrimIgnoresSurroundings(before, retyped, after);
    FoldTrim(retyped);
    FoldTrim(command);
    GuardIgnoresCase(AT_COMMAND_GUARDS, Trim(retyped), Trim(command));
  }

  // ---- What is asked about, and what is deliberately not ----

  lemma {:induction false} SkipAllDigits(n: string, rest: string)
    requires AllDigits(n, |n|) && (rest == "" || !IsDigit(rest[0]))
    ensures SkipDigits(n + rest) == rest
  {
    if n == "" {
      assert n + rest == rest;
    } else {
      assert n[0] in n && (n + rest)[1..] == n[1..] + rest;
      SkipAllDigits(n[1..], rest);
    }
  }

  lemma AssignedValue(word: string, s: string, value: string)
    requires |word| <= |s| && (forall i | 0 <= i < |word| :: Lower(s[i]) == word[i])
    requires s[|word|..] == "=" + value && (value == "" || !IsSpace(value[0]))
    ensures Assigned(word, s) == Some(value)
  {
    assert ("=" + value)[1..] == value;
    assert SkipSpaces("=" + value) == "=" + value;
    assert SkipSpaces(value) == value;
  }

  /** Every `AT+CFUN=<digits>,1` is asked about as a reset, whatever the number. */
  lemma EveryResetIsAsked(n: string)
    requires IsNumber(n)
    ensures AtCommandGuard("AT+CFUN=" + n + ",1") == Some(CFUN_RESET)
  {
    var s := "AT+CFUN=" + n + ",1";
    var value := n + ",1";
    assert s == "AT+CFUN=" + value;
    assert s[0] == 'A' && s[|s| - 1] == '1';
    assert TrimStart(s) == s && TrimEnd(s) == s;
    assert s[7..] == "=" + value;
    assert n[0] in n && value[0] == n[0];
    AssignedValue("at+cfun", s, value);
    SkipAllDigits(n, ",1");
    assert SkipSpaces(",1") == ",1" && ",1"[1..] == "1" && SkipSpaces("1") == "1" && "1"[1..] == "";
    assert SaysReset(value);
    CfunShapes(s);
    AnswerIsTheOneMatch(AT_COMMAND_GUARDS, s, CFUN_RESET);
  }

  /** A command that bears a guard's tag and still does not match it trips nothing at all. */
  lemma NothingUnlessTagged(typed: string, i: nat)
    requires i < |AT_COMMAND_GUARDS| && i != 2 && Tag(typed) in TAGS[i]
    requires !Matches(AT_COMMAND_GUARDS[i].pattern, typed)
    requires i == 1 ==> !Matches(AT_COMMAND_GUARDS[2].pattern, typed)
    ensures FirstGuard(AT_COMMAND_GUARDS, typed) == None
  {
    if FirstGuard(AT_COMMAND_GUARDS, typed).Some? {
      FirstGuardMatches(AT_COMMAND_GUARDS, typed);
      var g := FirstGuard(AT_COMMAND_GUARDS, typed).value;
      var j :| 0 <= j < |AT_COMMAND_GUARDS| && AT_COMMAND_GUARDS[j] == g;
      GuardTag(j, typed);
      if i < j { TagsAreDisjoint(i, j); }
      if j < i { TagsAreDisjoint(j, i); }
    }
  }

  lemma {:induction false} FirstGuardMatches(guards: seq<AtGuard>, typed: string)
    requires FirstGuard(guards, typed).Some?
    ensures var g := FirstGuard(guards, typed).value; g in guards && Matches(g.pattern, typed)
  {
    if !Matches(guards[0].pattern, typed) { FirstGuardMatches(guards[1..], typed); }
  }

  lemma CfunOneShape(s: string)
    requires Assigned("at+cfun", s) == Some("1")
    ensures !Matches(CFUN_RESET.pattern, s) && !Matches(CFUN_OFF.pattern, s)
  {
    CfunShapes(s);
    assert "1" + "" == "1";
    SkipAllDigits("1", "");
    assert !SaysReset("1");
  }

  /** The recovery is never asked about: `AT+CFUN=1` goes straight out. */
  lemma PlainCfunOneIsNotAsked()
    ensures AtCommandGuard("AT+CFUN=1") == None
  {
    var s := "AT+CFUN=1";
    assert TrimStart(s) == s && TrimEnd(s) == s;
    assert s[7..] == "=" + "1";
    AssignedValue("at+cfun", s, "1");
    CfunOneShape(s);
    TagOfWord("at+cfun", s);
    assert "at+cfun"[3..7] == "cfun";
    NothingUnlessTagged(s, 1);
  }

  lemma AssignedChoice(word: string, words: seq<string>, rest: seq<Piece>, s: string, value: string) returns (w: string)
    requires forall v <- words :: v != "" && !IsSpace(v[0])
    requires Assigned(word, s) == Some(value) && Matches(Assign(word, [OneOf(words)] + rest), s)
    ensures w in words && StartsWith(w, value)
  {
    OneOfIsSolid(words, rest);
    AssignMatches(word, [OneOf(words)] + rest, s);
    OneOfStep(words, rest, value);
    w :| w in words && StartsWith(w, value);
  }

  lemma CopsNeedsOneOrTwo(s: string, value: string)
    requires Assigned("at+cops", s) == Some(value) && Matches(COPS_MANUAL.pattern, s)
    ensures value != "" && (value[0] == '1' || value[0] == '2')
  {
    var words := ["1", "2"];
    var rest := [Spaces, Either([Lit(",")], [End])];
    assert COPS_MANUAL.pattern == Assign("at+cops", [OneOf(words)] + rest);
    var w := AssignedChoice("at+cops", words, rest, s, value);
    OneCharWord(w, value);
  }

  /** Automatic selection (`AT+COPS=0…`) and the sweep (`AT+COPS=?…`) are never asked about, whatever follows. */
  lemma AutomaticCopsIsNotAsked(mode: char, tail: string)
    requires mode == '0' || mode == '?'
    ensures AtCommandGuard("AT+COPS=" + [mode] + tail) == None
  {
    var front := "AT+COPS=" + [mode];
    var s := Trim(front + tail);
    TrimKeepsFront(front, tail);
    var value := s[8..];
    assert s[..9] == front && s[8] == mode;
    assert forall i | 0 <= i < 7 :: s[i] == front[i];
    assert s[7..] == "=" + value;
    AssignedValue("at+cops", s, value);
    if Matches(COPS_MANUAL.pattern, s) {
      CopsNeedsOneOrTwo(s, value);
    }
    TagOfWord("at+cops", s);
    assert "at+cops"[3..7] == "cops";
    NothingUnlessTagged(s, 3);
  }

  lemma CrsmNeedsAWrite(s: string, value: string)
    requires Assigned("at+crsm", s) == Some(value) && Matches(CRSM_WRITE.pattern, s)
    ensures value != "" && value[0] == '2'
  {
    var words := ["214", "219", "220"];
    assert CRSM_WRITE.pattern == Assign("at+crsm", [OneOf(words)] + [Edge]);
    var w := AssignedChoice("at+crsm", words, [Edge], s, value);
    assert w[0] == '2' && Lower(value[0]) == '2';
  }

  lemma CrsmIsAskedForWrites(s: string, value: string)
    requires Assigned("at+crsm", s) == Some(value) && StartsWith("at+crsm", s)
    requires value != "" && value[0] != '2'
    ensures FirstGuard(AT_COMMAND_GUARDS, s) == None
  {
    if Matches(CRSM_WRITE.pattern, s) {
      CrsmNeedsAWrite(s, value);
    }
    TagOfWord("at+crsm", s);
    assert "at+crsm"[3..7] == "crsm";
    NothingUnlessTagged(s, 4);
  }

  /** Reading a SIM file (`AT+CRSM=176…`) is never asked about, whatever follows. */
  lemma ReadingAFileIsNotAsked(tail: string)
    ensures AtCommandGuard("AT+CRSM=176" + tail) == None
  {
    var front := "AT+CRSM=176";
    var s := Trim(front + tail);
    TrimKeepsFront(front, tail);
    var value := s[8..];
    assert s[..11] == front && s[8] == '1';
    assert forall i | 0 <= i < 7 :: s[i] == front[i];
    assert s[7] == front[7] && s[7..] == "=" + value;
    AssignedValue("at+crsm", s, value);
    CrsmIsAskedForWrites(s, value);
  }
}
