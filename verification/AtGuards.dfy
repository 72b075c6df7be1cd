/**
 The eight shapes of AT command that are asked about before they are sent
 (`AT_COMMAND_GUARDS` in `lib/tokens.ts`): the patterns as data, with the meaning
 a backtracking matcher gives them. Command syntax: 3GPP TS 27.007, sections 7.3
 (+COPS) and 8.2 (+CFUN).
 */
module AtGuards {
  import opened Wrappers
  import opened Texts

  /** The pieces the patterns are built from. `Lit` ignores ASCII case. */
  datatype Piece =
    | Lit(word: string)         // the word
    | Spaces                    // \s*
    | Digits                    // \d+
    | OneOf(words: seq<string>) // (?:a|b|c)
    | Either(left: seq<Piece>, right: seq<Piece>)
    | End                       // $
    | Edge                      // \b after a word character

  predicate IsWordChar(c: char) {
    IsDigit(c) || 'a' <= c <= 'z' || 'A' <= c <= 'Z' || c == '_'
  }

  predicate StartsWith(word: string, s: string) {
    |word| <= |s| && forall i | 0 <= i < |word| :: Lower(s[i]) == word[i]
  }

  predicate AllSpaces(s: string, n: nat) {
    n <= |s| && forall i | 0 <= i < n :: IsSpace(s[i])
  }

  function Weight(pieces: seq<Piece>): nat {
    if pieces == [] then 0
    else 1 + (if pieces[0].Either? then Weight(pieces[0].left) + Weight(pieces[0].right) else 0) + Weight(pieces[1..])
  }

  lemma {:induction false} WeightOfConcat(a: seq<Piece>, b: seq<Piece>)
    ensures Weight(a + b) == Weight(a) + Weight(b)
  {
    if a == [] {
      assert a + b == b;
    } else {
      assert (a + b)[1..] == a[1..] + b;
      WeightOfConcat(a[1..], b);
    }
  }

  /** Some way of dividing the front of `s` among the pieces exists. */
  predicate Matches(pieces: seq<Piece>, s: string)
    decreases Weight(pieces)
  {
    if pieces == [] then true
    else
      var rest := pieces[1..];
      match pieces[0]
      case Lit(word) => StartsWith(word, s) && Matches(rest, s[|word|..])
      case Spaces => exists n: nat | n <= |s| :: AllSpaces(s, n) && Matches(rest, s[n..])
      case Digits => exists n: nat | n <= |s| :: n > 0 && AllDigits(s, n) && Matches(rest, s[n..])
      case OneOf(words) => exists w <- words :: StartsWith(w, s) && Matches(rest, s[|w|..])
      case Either(left, right) =>
        WeightOfConcat(left, rest);
        WeightOfConcat(right, rest);
        Matches(left + rest, s) || Matches(right + rest, s)
      case End => s == "" && Matches(rest, s)
      case Edge => (s == "" || !IsWordChar(s[0])) && Matches(rest, s)
  }

  datatype AtGuard = AtGuard(id: string, pattern: seq<Piece>, consequence: string)

  /** `word`, an equals sign, and what follows it, with blanks allowed around the sign. */
  function Assign(word: string, tail: seq<Piece>): seq<Piece> {
    [Lit(word), Spaces, Lit("="), Spaces] + tail
  }

  const RESET_TAIL: seq<Piece> := [Digits, Spaces, Lit(","), Spaces, Lit("1"), Spaces, End]
  const ZERO_TAIL: seq<Piece> := [Lit(","), Spaces, Lit("0"), Spaces]
  const OFF_TAIL: seq<Piece> := [OneOf(["0", "4", "7"]), Spaces, Either(ZERO_TAIL, []), End]

  const USBNET := AtGuard("usbnet",
    Assign("at+qcfg", [Lit("\"usbnet\""), Spaces, Lit(","), Spaces, Digits]), "device.atGuardUsbnet")
  const CFUN_RESET := AtGuard("cfun-reset", Assign("at+cfun", RESET_TAIL), "device.atGuardCfunReset")
  const CFUN_OFF := AtGuard("cfun-off", Assign("at+cfun", OFF_TAIL), "device.atGuardCfunOff")
  const COPS_MANUAL := AtGuard("cops-manual",
    Assign("at+cops", [OneOf(["1", "2"]), Spaces, Either([Lit(",")], [End])]), "device.atGuardCops")
  const CRSM_WRITE := AtGuard("crsm-write",
    Assign("at+crsm", [OneOf(["214", "219", "220"]), Edge]), "device.atGuardCrsm")
  const CSIM := AtGuard("csim", [Lit("at+csim"), Spaces, Lit("=")], "device.atGuardCsim")
  const LOGICAL_CHANNEL := AtGuard("logical-channel",
    [Lit("at+"), OneOf(["ccho", "cgla", "cchc"]), Edge], "device.atGuardChannel")
  const NVRAM := AtGuard("nvram", [Lit("at+qprtpara"), Spaces, Lit("=")], "device.atGuardNvram")

  const AT_COMMAND_GUARDS: seq<AtGuard> :=
    [USBNET, CFUN_RESET, CFUN_OFF, COPS_MANUAL, CRSM_WRITE, CSIM, LOGICAL_CHANNEL, NVRAM]

  function FirstGuard(guards: seq<AtGuard>, typed: string): Option<AtGuard> {
    if guards == [] then None
    else if Matches(guards[0].pattern, typed) then Some(guards[0])
    else FirstGuard(guards[1..], typed)
  }

  function AtCommandGuard(command: string): Option<AtGuard> {
    FirstGuard(AT_COMMAND_GUARDS, Trim(command))
  }

  /** The loop of `atCommandGuard`. */
  method FindAtCommandGuard(command: string) returns (guard: Option<AtGuard>)
    ensures guard == AtCommandGuard(command)
  {
    var typed := Trim(command);
    for n := 0 to |AT_COMMAND_GUARDS|
      invariant FirstGuard(AT_COMMAND_GUARDS[n..], typed) == AtCommandGuard(command)
    {
      assert AT_COMMAND_GUARDS[n..][1..] == AT_COMMAND_GUARDS[n + 1..];
      if Matches(AT_COMMAND_GUARDS[n].pattern, typed) { return Some(AT_COMMAND_GUARDS[n]); }
    }
    return None;
  }

  // ---- Piece by piece ----

  lemma LitStep(word: string, rest: seq<Piece>, s: string)
    ensures Matches([Lit(word)] + rest, s) <==> StartsWith(word, s) && Matches(rest, s[|word|..])
  {
    assert ([Lit(word)] + rest)[1..] == rest;
  }

  lemma OneOfStep(words: seq<string>, rest: seq<Piece>, s: string)
    ensures Matches([OneOf(words)] + rest, s) <==> exists w <- words :: StartsWith(w, s) && Matches(rest, s[|w|..])
  {
    assert ([OneOf(words)] + rest)[1..] == rest;
  }

  lemma EitherStep(left: seq<Piece>, right: seq<Piece>, rest: seq<Piece>, s: string)
    ensures Matches([Either(left, right)] + rest, s) <==> Matches(left + rest, s) || Matches(right + rest, s)
  {
    assert ([Either(left, right)] + rest)[1..] == rest;
  }

  lemma EndStep(rest: seq<Piece>, s: string)
    ensures Matches([End] + rest, s) <==> s == "" && Matches(rest, s)
  {
    assert ([End] + rest)[1..] == rest;
  }

  function SkipSpaces(s: string): string {
    if s != "" && IsSpace(s[0]) then SkipSpaces(s[1..]) else s
  }

  function SkipDigits(s: string): string {
    if s != "" && IsDigit(s[0]) then SkipDigits(s[1..]) else s
  }

  /** Nothing the pieces match begins with a blank. */
  ghost predicate Solid(pieces: seq<Piece>) {
    forall s | Matches(pieces, s) :: s == "" || !IsSpace(s[0])
  }

  ghost predicate NoDigitFirst(pieces: seq<Piece>) {
    forall s | Matches(pieces, s) :: s == "" || !IsDigit(s[0])
  }

  lemma {:induction false} SkipSpacesIsTail(s: string) returns (m: nat)
    ensures AllSpaces(s, m) && SkipSpaces(s) == s[m..] && (m < |s| ==> !IsSpace(s[m]))
  {
    if s != "" && IsSpace(s[0]) {
      var k := SkipSpacesIsTail(s[1..]);
      m := k + 1;
      assert forall i | 0 < i < m :: s[i] == s[1..][i - 1];
      assert s[1..][k..] == s[m..];
      if m < |s| { assert s[m] == s[1..][k]; }
    } else {
      m := 0;
    }
  }

  lemma {:induction false} SkipDigitsIsTail(s: string) returns (m: nat)
    ensures AllDigits(s, m) && SkipDigits(s) == s[m..] && (m < |s| ==> !IsDigit(s[m]))
    ensures m > 0 <==> s != "" && IsDigit(s[0])
  {
    if s != "" && IsDigit(s[0]) {
      var k := SkipDigitsIsTail(s[1..]);
      m := k + 1;
      assert forall i | 0 < i < m :: s[i] == s[1..][i - 1];
      assert s[1..][k..] == s[m..];
      if m < |s| { assert s[m] == s[1..][k]; }
    } else {
      m := 0;
    }
  }

  /** Before something that is not blank, `\s*` takes exactly the blanks that are there. */
  lemma SpacesStep(rest: seq<Piece>, s: string)
    requires Solid(rest)
    ensures Matches([Spaces] + rest, s) <==> Matches(rest, SkipSpaces(s))
  {
    assert ([Spaces] + rest)[1..] == rest;
    var m := SkipSpacesIsTail(s);
    if Matches([Spaces] + rest, s) {
      var n: nat :| n <= |s| && AllSpaces(s, n) && Matches(rest, s[n..]);
    }
  }

  /** Before something that does not begin with a digit, `\d+` takes the whole number. */
  lemma DigitsStep(rest: seq<Piece>, s: string)
    requires NoDigitFirst(rest)
    ensures Matches([Digits] + rest, s) <==> s != "" && IsDigit(s[0]) && Matches(rest, SkipDigits(s))
  {
    assert ([Digits] + rest)[1..] == rest;
    var m := SkipDigitsIsTail(s);
    if Matches([Digits] + rest, s) {
      var n: nat :| n <= |s| && n > 0 && AllDigits(s, n) && Matches(rest, s[n..]);
      AllTheDigits(rest, s, n, m);
    }
  }

  lemma AllTheDigits(rest: seq<Piece>, s: string, n: nat, m: nat)
    requires NoDigitFirst(rest) && AllDigits(s, n) && Matches(rest, s[n..])
    requires AllDigits(s, m) && (m < |s| ==> !IsDigit(s[m]))
    ensures n == m
  {
    assert n < |s| ==> s[n..][0] == s[n];
  }

  lemma LitIsSolid(word: string, rest: seq<Piece>)
    requires word != "" && !IsSpace(word[0])
    ensures Solid([Lit(word)] + rest)
  {
    forall s | Matches([Lit(word)] + rest, s) ensures s == "" || !IsSpace(s[0]) {
      LitStep(word, rest, s);
    }
  }
}
