/**
 The AT guards read from left to right: what each of them looks for, without a
 matcher that tries and goes back, and the sentence it asks.
 */
module AtSentences {
  import opened Wrappers
  import opened Texts
  import opened AtGuards
  import opened AtGuardProofs

  /** `at+qcfg = "usbnet" , digit…` */
  predicate SetsUsbnet(s: string) {
    && Assigned("at+qcfg", s).Some?
    && var v := Assigned("at+qcfg", s).value; NamesUsbnet(v)
  }

  predicate NamesUsbnet(v: string) {
    && StartsWith("\"usbnet\"", v)
    && var comma := SkipSpaces(v[8..]);
       comma != "" && comma[0] == ',' && var d := SkipSpaces(comma[1..]); d != "" && IsDigit(d[0])
  }

  predicate ResetsTheModule(s: string) {
    Assigned("at+cfun", s).Some? && SaysReset(Assigned("at+cfun", s).value)
  }

  predicate TurnsRadioOff(s: string) {
    Assigned("at+cfun", s).Some? && SaysOff(Assigned("at+cfun", s).value)
  }

  /** `at+cops = 1` or `2`, and then a comma or nothing. */
  predicate SetsOperator(s: string) {
    Assigned("at+cops", s).Some? && NamesManual(Assigned("at+cops", s).value)
  }

  predicate NamesManual(v: string) {
    && v != "" && (v[0] == '1' || v[0] == '2')
    && var r := SkipSpaces(v[1..]); r == "" || r[0] == ','
  }

  /** `at+crsm =` one of the three codes that write, as a whole number. */
  predicate WritesSimFile(s: string) {
    Assigned("at+crsm", s).Some? && NamesWrite(Assigned("at+crsm", s).value)
  }

  predicate NamesWrite(v: string) {
    && |v| >= 3 && (v[..3] == "214" || v[..3] == "219" || v[..3] == "220")
    && (|v| == 3 || !IsWordChar(v[3]))
  }

  predicate SendsToSim(s: string) {
    Assigned("at+csim", s).Some?
  }

  /** One of the three logical channel commands, whatever it is given. */
  predicate UsesChannel(s: string) {
    && (StartsWith("at+ccho", s) || StartsWith("at+cgla", s) || StartsWith("at+cchc", s))
    && (|s| == 7 || !IsWordChar(s[7]))
  }

  predicate WritesNvram(s: string) {
    Assigned("at+qprtpara", s).Some?
  }

  /** The sentence of the one guard a trimmed command trips. */
  function SentenceFor(s: string): Option<string> {
    if SetsUsbnet(s) then Some("device.atGuardUsbnet")
    else if ResetsTheModule(s) then Some("device.atGuardCfunReset")
    else if TurnsRadioOff(s) then Some("device.atGuardCfunOff")
    else if SetsOperator(s) then Some("device.atGuardCops")
    else if WritesSimFile(s) then Some("device.atGuardCrsm")
    else if SendsToSim(s) then Some("device.atGuardCsim")
    else if UsesChannel(s) then Some("device.atGuardChannel")
    else if WritesNvram(s) then Some("device.atGuardNvram")
    else None
  }

  // ---- Pattern by pattern ----

  lemma OneDigitIsEnough(s: string)
    ensures Matches([Digits], s) <==> s != "" && IsDigit(s[0])
  {
    assert [Digits][1..] == [];
    if s != "" && IsDigit(s[0]) {
      assert AllDigits(s, 1) && Matches([], s[1..]);
    }
  }

  lemma DigitsAreSolid()
    ensures Solid([Digits])
  {
    forall s | Matches([Digits], s) ensures s == "" || !IsSpace(s[0]) {
      OneDigitIsEnough(s);
    }
  }

  lemma CommaThenDigit(u: string)
    ensures Matches([Lit(",")] + ([Spaces] + [Digits]), u) <==>
              u != "" && u[0] == ',' && var d := SkipSpaces(u[1..]); d != "" && IsDigit(d[0])
  {
    LitStep(",", [Spaces] + [Digits], u);
    if StartsWith(",", u) {
      DigitsAreSolid();
      SpacesStep([Digits], u[1..]);
      OneDigitIsEnough(SkipSpaces(u[1..]));
    }
  }

  const USBNET_TAIL: seq<Piece> := [Lit("\"usbnet\""), Spaces, Lit(","), Spaces, Digits]

  lemma UsbnetTail(v: string)
    ensures Matches(USBNET_TAIL, v) <==> NamesUsbnet(v)
  {
    var comma := [Lit(",")] + ([Spaces] + [Digits]);
    assert USBNET_TAIL == [Lit("\"usbnet\"")] + ([Spaces] + comma);
    LitStep("\"usbnet\"", [Spaces] + comma, v);
    if StartsWith("\"usbnet\"", v) {
      LitIsSolid(",", [Spaces] + [Digits]);
      SpacesStep(comma, v[8..]);
      CommaThenDigit(SkipSpaces(v[8..]));
    }
  }

  lemma UsbnetShape(s: string)
    ensures Matches(USBNET.pattern, s) <==> SetsUsbnet(s)
  {
    assert USBNET_TAIL == [Lit("\"usbnet\"")] + [Spaces, Lit(","), Spaces, Digits];
    LitIsSolid("\"usbnet\"", [Spaces, Lit(","), Spaces, Digits]);
    AssignMatches("at+qcfg", USBNET_TAIL, s);
    if Assigned("at+qcfg", s).Some? { UsbnetTail(Assigned("at+qcfg", s).value); }
  }

  lemma CommaOrEnd(u: string)
    ensures Matches([Either([Lit(",")], [End])], u) <==> u == "" || u[0] == ','
  {
    assert [Either([Lit(",")], [End])] == [Either([Lit(",")], [End])] + [];
    EitherStep([Lit(",")], [End], [], u);
    LitStep(",", [], u);
    EndStep([], u);
  }

  const MANUAL_TAIL: seq<Piece> := [OneOf(["1", "2"]), Spaces, Either([Lit(",")], [End])]

  lemma ManualWord(words: seq<string>, rest: seq<Piece>, v: string)
    requires words == ["1", "2"]
    ensures Matches([OneOf(words)] + rest, v) <==> v != "" && (v[0] == '1' || v[0] == '2') && Matches(rest, v[1..])
  {
    OneOfStep(words, rest, v);
    assert words[0] == "1" && words[1] == "2" && forall w <- words :: w == "1" || w == "2";
    OneCharWord("1", v);
    OneCharWord("2", v);
  }

  lemma ManualTail(v: string)
    ensures Matches(MANUAL_TAIL, v) <==> NamesManual(v)
  {
    var last := [Either([Lit(",")], [End])];
    assert MANUAL_TAIL == [OneOf(["1", "2"])] + ([Spaces] + last);
    ManualWord(["1", "2"], [Spaces] + last, v);
    if v != "" {
      forall u | Matches(last, u) ensures u == "" || !IsSpace(u[0]) { CommaOrEnd(u); }
      SpacesStep(last, v[1..]);
      CommaOrEnd(SkipSpaces(v[1..]));
    }
  }

  lemma CopsShape(s: string)
    ensures Matches(COPS_MANUAL.pattern, s) <==> SetsOperator(s)
  {
    forall v | Matches(MANUAL_TAIL, v) ensures v == "" || !IsSpace(v[0]) { ManualTail(v); }
    AssignMatches("at+cops", MANUAL_TAIL, s);
    if Assigned("at+cops", s).Some? { ManualTail(Assigned("at+cops", s).value); }
  }

  lemma AtEdge(u: string)
    ensures Matches([Edge], u) <==> u == "" || !IsWordChar(u[0])
  {
    assert [Edge][1..] == [];
  }

  lemma ThreeDigits(w: string, v: string)
    requires |w| == 3 && forall i | 0 <= i < 3 :: IsDigit(w[i])
    ensures StartsWith(w, v) <==> |v| >= 3 && v[..3] == w
  {
    if |v| >= 3 && StartsWith(w, v) {
      assert forall i | 0 <= i < 3 :: v[..3][i] == w[i];
    }
  }

  const WRITE_TAIL: seq<Piece> := [OneOf(["214", "219", "220"]), Edge]

  lemma WriteWord(words: seq<string>, v: string)
    requires words == ["214", "219", "220"]
    ensures (exists w <- words :: StartsWith(w, v)) <==>
              |v| >= 3 && (v[..3] == "214" || v[..3] == "219" || v[..3] == "220")
  {
    assert words[0] == "214" && words[1] == "219" && words[2] == "220";
    ThreeDigits("214", v);
    ThreeDigits("219", v);
    ThreeDigits("220", v);
  }

  lemma WriteTail(v: string)
    ensures Matches(WRITE_TAIL, v) <==> NamesWrite(v)
  {
    var words := ["214", "219", "220"];
    assert WRITE_TAIL == [OneOf(words)] + [Edge];
    OneOfStep(words, [Edge], v);
    assert forall w <- words :: |w| == 3;
    WriteWord(words, v);
    if |v| >= 3 { AtEdge(v[3..]); }
  }

  lemma CrsmPattern()
    ensures CRSM_WRITE.pattern == Assign("at+crsm", WRITE_TAIL)
  {
  }

  lemma WriteTailIsSolid()
    ensures Solid(WRITE_TAIL)
  {
    forall v | Matches(WRITE_TAIL, v) ensures v == "" || !IsSpace(v[0]) {
      WriteTail(v);
      assert v[..3][0] == '2';
    }
  }

  lemma CrsmShape(s: string)
    ensures Matches(CRSM_WRITE.pattern, s) <==> WritesSimFile(s)
  {
    WriteTailIsSolid();
    CrsmPattern();
    AssignMatches("at+crsm", WRITE_TAIL, s);
    if Assigned("at+crsm", s).Some? { WriteTail(Assigned("at+crsm", s).value); }
  }

  lemma AnyAssignment(word: string, s: string)
    ensures Matches([Lit(word), Spaces, Lit("=")], s) <==> Assigned(word, s).Some?
  {
    var sign := [Lit("=")] + [];
    assert [Lit(word), Spaces, Lit("=")] == [Lit(word)] + ([Spaces] + sign);
    LitStep(word, [Spaces] + sign, s);
    if StartsWith(word, s) {
      LitIsSolid("=", []);
      SpacesStep(sign, s[|word|..]);
      LitStep("=", [], SkipSpaces(s[|word|..]));
    }
  }

  lemma WordInTwo(front: string, back: string, s: string)
    ensures StartsWith(front + back, s) <==> StartsWith(front, s) && StartsWith(back, s[|front|..])
  {
    var word := front + back;
    if StartsWith(word, s) {
      assert forall i | 0 <= i < |front| :: word[i] == front[i];
      assert forall i | 0 <= i < |back| :: word[|front| + i] == back[i] && s[|front|..][i] == s[|front| + i];
    }
    if StartsWith(front, s) && StartsWith(back, s[|front|..]) {
      forall i | 0 <= i < |word| ensures Lower(s[i]) == word[i] {
        if i >= |front| { assert s[|front|..][i - |front|] == s[i]; }
      }
    }
  }

  lemma ChannelTail(words: seq<string>, u: string)
    requires words == ["ccho", "cgla", "cchc"]
    ensures Matches([OneOf(words)] + [Edge], u) <==>
              && (StartsWith("ccho", u) || StartsWith("cgla", u) || StartsWith("cchc", u))
              && (|u| == 4 || !IsWordChar(u[4]))
  {
    OneOfStep(words, [Edge], u);
    assert words[0] == "ccho" && words[1] == "cgla" && words[2] == "cchc" && forall w <- words :: |w| == 4;
    if |u| >= 4 { AtEdge(u[4..]); }
  }

  lemma ChannelNames(s: string)
    ensures StartsWith("at+ccho", s) || StartsWith("at+cgla", s) || StartsWith("at+cchc", s) <==>
              StartsWith("at+", s)
                && (StartsWith("ccho", s[3..]) || StartsWith("cgla", s[3..]) || StartsWith("cchc", s[3..]))
  {
    assert "at+ccho" == "at+" + "ccho" && "at+cgla" == "at+" + "cgla" && "at+cchc" == "at+" + "cchc";
    WordInTwo("at+", "ccho", s);
    WordInTwo("at+", "cgla", s);
    WordInTwo("at+", "cchc", s);
  }

  lemma ChannelShape(s: string)
    ensures Matches(LOGICAL_CHANNEL.pattern, s) <==> UsesChannel(s)
  {
    var words := ["ccho", "cgla", "cchc"];
    assert LOGICAL_CHANNEL.pattern == [Lit("at+")] + ([OneOf(words)] + [Edge]);
    LitStep("at+", [OneOf(words)] + [Edge], s);
    ChannelNames(s);
    if StartsWith("at+", s) { ChannelTail(words, s[3..]); }
  }

  // ---- All of them ----

  predicate HasShape(i: nat, s: string)
    requires i < 8
  {
    match i
    case 0 => SetsUsbnet(s)
    case 1 => ResetsTheModule(s)
    case 2 => TurnsRadioOff(s)
    case 3 => SetsOperator(s)
    case 4 => WritesSimFile(s)
    case 5 => SendsToSim(s)
    case 6 => UsesChannel(s)
    case 7 => WritesNvram(s)
  }

  lemma ShapeOf(i: nat, s: string)
    requires i < |AT_COMMAND_GUARDS|
    ensures Matches(AT_COMMAND_GUARDS[i].pattern, s) <==> HasShape(i, s)
  {
    match i
    case 0 => UsbnetShape(s);
    case 1 => CfunShapes(s);
    case 2 => CfunShapes(s);
    case 3 => CopsShape(s);
    case 4 => CrsmShape(s);
    case 5 => AnyAssignment("at+csim", s);
    case 6 => ChannelShape(s);
    case 7 => AnyAssignment("at+qprtpara", s);
  }

  /** The first shape a command has, by number; 8 when it has none. */
  function FirstShape(s: string, i: nat): (n: nat)
    requires i <= 8
    ensures i <= n <= 8 && (n < 8 ==> HasShape(n, s)) && (n == 8 ==> forall k | i <= k < 8 :: !HasShape(k, s))
    decreases 8 - i
  {
    if i == 8 || HasShape(i, s) then i else FirstShape(s, i + 1)
  }

  const SENTENCES: seq<string> :=
    ["device.atGuardUsbnet", "device.atGuardCfunReset", "device.atGuardCfunOff", "device.atGuardCops",
     "device.atGuardCrsm", "device.atGuardCsim", "device.atGuardChannel", "device.atGuardNvram"]

  lemma SentenceForFirst(s: string)
    ensures SentenceFor(s) == var n := FirstShape(s, 0); if n < 8 then Some(SENTENCES[n]) else None
  {
    var n := FirstShape(s, 0);
    assert forall k | 0 <= k < n :: !HasShape(k, s) by { NoneBefore(s, 0); }
  }

  lemma {:induction false} NoneBefore(s: string, i: nat)
    requires i <= 8
    ensures forall k | i <= k < FirstShape(s, i) :: !HasShape(k, s)
    decreases 8 - i
  {
    if i < 8 && !HasShape(i, s) { NoneBefore(s, i + 1); }
  }

  /** Whatever is typed, the sentence asked is that of the shape the trimmed command has, and none if it has none. */
  lemma SentenceIsTheShapes(command: string)
    ensures var guard := AtCommandGuard(command);
            (if guard.Some? then Some(guard.value.consequence) else None) == SentenceFor(Trim(command))
  {
    var s := Trim(command);
    var n := FirstShape(s, 0);
    SentenceForFirst(s);
    if n < 8 {
      ShapeOf(n, s);
      TheGuardOf(n, s);
      assert AT_COMMAND_GUARDS[n].consequence == SENTENCES[n];
    } else {
      NoGuardWithoutAShape(s);
    }
  }

  lemma TheGuardOf(n: nat, s: string)
    requires n < |AT_COMMAND_GUARDS| && Matches(AT_COMMAND_GUARDS[n].pattern, s)
    ensures FirstGuard(AT_COMMAND_GUARDS, s) == Some(AT_COMMAND_GUARDS[n])
  {
    assert AT_COMMAND_GUARDS[n] in AT_COMMAND_GUARDS;
    forall x, y | x in AT_COMMAND_GUARDS && y in AT_COMMAND_GUARDS && Matches(x.pattern, s) && Matches(y.pattern, s)
      ensures x == y
    {
      OnlyOneMatches(x, y, s);
    }
    FirstIsAnyMatch(AT_COMMAND_GUARDS, s, AT_COMMAND_GUARDS[n]);
  }

  lemma NoGuardWithoutAShape(s: string)
    requires forall k | 0 <= k < 8 :: !HasShape(k, s)
    ensures FirstGuard(AT_COMMAND_GUARDS, s) == None
  {
    if FirstGuard(AT_COMMAND_GUARDS, s).Some? {
      FirstGuardMatches(AT_COMMAND_GUARDS, s);
      var g := FirstGuard(AT_COMMAND_GUARDS, s).value;
      var i :| 0 <= i < |AT_COMMAND_GUARDS| && AT_COMMAND_GUARDS[i] == g;
      ShapeOf(i, s);
    }
  }
}
