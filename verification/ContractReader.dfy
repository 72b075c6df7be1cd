/**
 The gateway's reader of the emitted paths (`internal/wss/conformance.go`):
 which paths it reads back, and from a schema to the list of violations.
 */
module ContractReader {
  import opened Sequences
  import opened Json
  import opened Contract
  import opened ContractMeaning
  import opened ContractPaths
  import opened SinglePath

  // ---- The gateway's reader ----

  /** Go's `strings.Cut(path, ".")`. */
  function CutDot(path: string): (string, string) {
    if path == "" then ("", "")
    else if path[0] == '.' then ("", path[1..])
    else
      var rest := CutDot(path[1..]);
      ([path[0]] + rest.0, rest.1)
  }

  lemma CutShrinks(path: string)
    ensures path != "" ==> |CutDot(path).1| < |path|
    ensures |CutDot(path).1| <= |path|
  {
  }

  predicate EndsInBrackets(head: string) {
    |head| >= 2 && head[|head| - 2..] == "[]"
  }

  function ValuesAt(node: Json, path: string): seq<string>
    decreases |path|, 0, 0
  {
    if path == "" then if node.Str? then [node.s] else []
    else
      CutShrinks(path);
      var (head, rest) := CutDot(path);
      if EndsInBrackets(head) then
        var field := head[..|head| - 2];
        if node.Obj? && field in node.members && node.members[field].Arr? then
          ValuesAtEach(node.members[field].items, rest)
        else []
      else if node.Obj? && head in node.members then ValuesAt(node.members[head], rest)
      else []
  }

  function ValuesAtEach(items: seq<Json>, path: string): seq<string>
    decreases |path|, 1, |items|
  {
    if items == [] then [] else ValuesAt(items[0], path) + ValuesAtEach(items[1..], path)
  }

  datatype Violation = Violation(path: string, actual: string)

  function Offending(path: string, values: seq<string>, actuals: seq<string>): seq<Violation> {
    if actuals == [] then []
    else (if actuals[0] in values then [] else [Violation(path, actuals[0])]) + Offending(path, values, actuals[1..])
  }

  function Violations(constraints: seq<Emitted>, document: Json): seq<Violation> {
    if constraints == [] then []
    else
      Offending(constraints[0].path, constraints[0].values, ValuesAt(document, constraints[0].path))
      + Violations(constraints[1..], document)
  }

  lemma OffendingStep(path: string, values: seq<string>, actuals: seq<string>, n: nat)
    requires n < |actuals|
    ensures Offending(path, values, actuals[n..]) ==
            (if actuals[n] in values then [] else [Violation(path, actuals[n])])
              + Offending(path, values, actuals[n + 1..])
  {
    assert actuals[n..][1..] == actuals[n + 1..];
  }

  lemma ViolationsStep(constraints: seq<Emitted>, document: Json, c: nat)
    requires c < |constraints|
    ensures Violations(constraints[c..], document) ==
            Offending(constraints[c].path, constraints[c].values, ValuesAt(document, constraints[c].path))
            + Violations(constraints[c + 1..], document)
  {
    assert constraints[c..][1..] == constraints[c + 1..];
  }

  /** The nested loops of `violations`. */
  method FindOffending(path: string, values: seq<string>, actuals: seq<string>) returns (found: seq<Violation>)
    ensures found == Offending(path, values, actuals)
  {
    found := [];
    for n := 0 to |actuals|
      invariant found + Offending(path, values, actuals[n..]) == Offending(path, values, actuals)
    {
      OffendingStep(path, values, actuals, n);
      if actuals[n] in values { continue; }
      Regroup(found, [Violation(path, actuals[n])], Offending(path, values, actuals[n + 1..]));
      found := found + [Violation(path, actuals[n])];
    }
  }

  method FindViolations(constraints: seq<Emitted>, document: Json) returns (found: seq<Violation>)
    ensures found == Violations(constraints, document)
  {
    found := [];
    for c := 0 to |constraints|
      invariant found + Violations(constraints[c..], document) == Violations(constraints, document)
    {
      ViolationsStep(constraints, document, c);
      var more := FindOffending(constraints[c].path, constraints[c].values, ValuesAt(document, constraints[c].path));
      Regroup(found, more, Violations(constraints[c + 1..], document));
      found := found + more;
    }
  }

  // ---- What the reader follows ----

  /** The steps the reader takes at the head of a path: `f[]` is a field and the items of it, anything else a field. */
  function HeadSteps(head: string): seq<Step> {
    if EndsInBrackets(head) then [Field(head[..|head| - 2]), Items] else [Field(head)]
  }

  /** The steps the reader takes for a textual path. */
  function Parsed(path: string): seq<Step>
    decreases |path|
  {
    if path == "" then []
    else
      CutShrinks(path);
      HeadSteps(CutDot(path).0) + Parsed(CutDot(path).1)
  }

  /** The reader finds exactly the texts those steps lead to. */
  lemma {:induction false} ReaderFollowsItsSteps(doc: Json, path: string)
    ensures ValuesAt(doc, path) == Texts(Select(doc, Parsed(path)))
    decreases |path|, 0, 1
  {
    if path != "" {
      CutShrinks(path);
      var (head, rest) := CutDot(path);
      var steps := Parsed(path);
      if EndsInBrackets(head) {
        var field := head[..|head| - 2];
        assert steps[0] == Field(field) && steps[1..] == [Items] + Parsed(rest);
        if doc.Obj? && field in doc.members && doc.members[field].Arr? {
          EachFollowsItsSteps(doc.members[field].items, rest);
        }
      } else {
        assert steps[0] == Field(head) && steps[1..] == Parsed(rest);
        if doc.Obj? && head in doc.members { ReaderFollowsItsSteps(doc.members[head], rest); }
      }
    }
  }

  lemma {:induction false} EachFollowsItsSteps(items: seq<Json>, path: string)
    ensures ValuesAtEach(items, path) == Texts(SelectEach(items, [Items] + Parsed(path)))
    decreases |path|, 1, |items|
  {
    if items != [] {
      assert ([Items] + Parsed(path))[1..] == Parsed(path);
      ReaderFollowsItsSteps(items[0], path);
      EachFollowsItsSteps(items[1..], path);
      TextsConcat(Select(items[0], Parsed(path)), SelectEach(items[1..], [Items] + Parsed(path)));
    }
  }

  // ---- Which paths are read back ----

  /** Steps whose textual path says what they are. A name may not hold a dot, and unless its items are taken it may not
      end in `[]`, nor be empty at either end of the path; items are taken of a field, once. */
  predicate Readable(steps: seq<Step>, first: bool) {
    steps == [] ||
    (&& steps[0].Field? && '.' !in steps[0].name
     && if |steps| > 1 && steps[1].Items? then Readable(steps[2..], false)
        else
          && !EndsInBrackets(steps[0].name) && (steps[0].name == "" ==> !first && |steps| > 1)
          && Readable(steps[1..], false))
  }

  /** What is written behind a path that has begun. */
  function Written(steps: seq<Step>): string {
    if steps == [] then "" else WrittenStep(steps[0]) + Written(steps[1..])
  }

  function WrittenStep(step: Step): string {
    match step case Field(name) => "." + name case Items => "[]"
  }

  lemma ExtendIsWritten(path: string, step: Step)
    requires path != ""
    ensures Extend(path, step) == path + WrittenStep(step)
  {
  }

  lemma {:induction false} RenderIsWritten(path: string, steps: seq<Step>)
    requires path != ""
    ensures Render(path, steps) == path + Written(steps)
    decreases |steps|
  {
    if steps == [] {
      assert path + "" == path;
    } else {
      ExtendIsWritten(path, steps[0]);
      var longer, rest := path + WrittenStep(steps[0]), Written(steps[1..]);
      RenderIsWritten(longer, steps[1..]);
      Regroup(path, WrittenStep(steps[0]), rest);
    }
  }

  lemma {:induction false} CutPlain(head: string, tail: string)
    requires '.' !in head
    ensures CutDot(head + "." + tail) == (head, tail)
    ensures CutDot(head) == (head, "")
  {
    if head == "" {
      assert head + "." + tail == "." + tail;
    } else {
      CutPlain(head[1..], tail);
      assert (head + "." + tail)[1..] == head[1..] + "." + tail;
      assert [head[0]] + head[1..] == head;
    }
  }

  lemma {:induction false} CutHoists(front: string, tail: string)
    requires '.' !in front
    ensures CutDot(front + tail) == (front + CutDot(tail).0, CutDot(tail).1)
  {
    if front == "" {
      assert front + tail == tail && front + CutDot(tail).0 == CutDot(tail).0;
    } else {
      CutHoists(front[1..], tail);
      assert (front + tail)[1..] == front[1..] + tail;
      assert [front[0]] + (front[1..] + CutDot(tail).0) == front + CutDot(tail).0;
    }
  }

  lemma {:induction false} HeadHasNoDot(path: string)
    ensures '.' !in CutDot(path).0
  {
    if path != "" && path[0] != '.' { HeadHasNoDot(path[1..]); }
  }

  lemma {:induction false} ParsedNamesHaveNoDot(path: string, step: Step)
    requires step in Parsed(path) && step.Field?
    ensures '.' !in step.name
    decreases |path|
  {
    CutShrinks(path);
    HeadHasNoDot(path);
    if step in Parsed(CutDot(path).1) { ParsedNamesHaveNoDot(CutDot(path).1, step); }
  }

  /** A head without a dot, then the end or a dot: the first steps are the head's. */
  lemma ParsedHead(head: string, tail: string)
    requires '.' !in head
    ensures head != "" ==> Parsed(head) == HeadSteps(head)
    ensures Parsed(head + "." + tail) == HeadSteps(head) + Parsed(tail)
  {
    CutPlain(head, tail);
    assert HeadSteps(head) + [] == HeadSteps(head);
  }

  lemma BracketedHead(name: string)
    ensures HeadSteps(name + "[]") == [Field(name), Items]
  {
    var head := name + "[]";
    assert head[..|head| - 2] == name && head[|head| - 2..] == "[]";
  }

  /** Behind its first name, a written path is parsed into its steps exactly when they are readable. */
  lemma {:induction false} ParsedBack(name: string, rest: seq<Step>)
    ensures Parsed(name + Written(rest)) == [Field(name)] + rest <==> Readable([Field(name)] + rest, false)
    decreases |rest|
  {
    var steps, path := [Field(name)] + rest, name + Written(rest);
    assert steps[1..] == rest;
    if '.' in name {
      if Parsed(path) == steps {
        assert steps[0] in Parsed(path);
        ParsedNamesHaveNoDot(path, steps[0]);
      }
    } else if rest == [] {
      assert path == name;
      ParsedHead(name, "");
    } else if rest[0].Field? {
      FieldParsedBack(name, rest);
    } else {
      assert steps[2..] == rest[1..];
      ItemsParsedBack(name, rest);
    }
  }

  lemma {:induction false} FieldParsedBack(name: string, rest: seq<Step>)
    requires '.' !in name && rest != [] && rest[0].Field?
    ensures Parsed(name + Written(rest)) == [Field(name)] + rest <==> !EndsInBrackets(name) && Readable(rest, false)
    decreases |rest|, 0
  {
    var next, more := rest[0].name, rest[1..];
    assert rest == [Field(next)] + more;
    assert name + Written(rest) == name + "." + (next + Written(more));
    ParsedHead(name, next + Written(more));
    ParsedBack(next, more);
    var tail := Parsed(next + Written(more));
    if !EndsInBrackets(name) {
      assert ([Field(name)] + tail)[1..] == tail && ([Field(name)] + rest)[1..] == rest;
    } else {
      assert (HeadSteps(name) + tail)[0] == Field(name[..|name| - 2]) != Field(name);
    }
  }

  lemma {:induction false} ItemsParsedBack(name: string, rest: seq<Step>)
    requires '.' !in name && rest != [] && rest[0].Items?
    ensures Parsed(name + Written(rest)) == [Field(name)] + rest <==> Readable(rest[1..], false)
    decreases |rest|, 0
  {
    var more := rest[1..];
    assert name + Written(rest) == name + "[]" + Written(more);
    if more == [] {
      BracketedHead(name);
      assert name + "[]" + "" == name + "[]";
      ParsedHead(name + "[]", "");
      assert [Field(name)] + rest == [Field(name), Items];
    } else if more[0].Field? {
      assert [Field(name)] + rest == [Field(name), Items] + more;
      FieldAfterItems(name, more);
    } else {
      ItemsAfterItems(name, more);
    }
  }

  lemma NoDotAdded(s: string)
    requires '.' !in s
    ensures '.' !in s + "[]" && |s + "[]"| == |s| + 2
  {
  }

  lemma ItemsAfterItems(name: string, more: seq<Step>)
    requires '.' !in name && more != [] && more[0].Items?
    ensures var steps := Parsed(name + "[]" + Written(more)); steps != [] && steps[0] != Field(name)
  {
    var once, tail := name + "[]", Written(more[1..]);
    Regroup(once, "[]", tail);
    NoDotAdded(name);
    NoDotAdded(once);
    LongHead(once + "[]", tail);
  }

  lemma {:induction false} FieldAfterItems(name: string, more: seq<Step>)
    requires '.' !in name && more != [] && more[0].Field?
    ensures Parsed(name + "[]" + Written(more)) == [Field(name), Items] + more <==> Readable(more, false)
    decreases |more|, 1
  {
    var next, last := more[0].name, more[1..];
    assert more == [Field(next)] + last;
    assert name + "[]" + Written(more) == name + "[]" + "." + (next + Written(last));
    BracketedHead(name);
    ParsedHead(name + "[]", next + Written(last));
    ParsedBack(next, last);
    var tail := Parsed(next + Written(last));
    assert ([Field(name), Items] + tail)[2..] == tail && ([Field(name), Items] + more)[2..] == more;
  }

  /** A head of dot-free text gives a first name at most two characters shorter. */
  lemma LongHead(front: string, tail: string)
    requires '.' !in front && front != ""
    ensures var steps := Parsed(front + tail); steps != [] && steps[0].Field? && |steps[0].name| >= |front| - 2
  {
    CutHoists(front, tail);
  }

  /** A path begins with a dot only if one of its names does. */
  lemma {:induction false} DotComesFromAName(steps: seq<Step>)
    requires Render("", steps) != "" && Render("", steps)[0] == '.'
    ensures exists step <- steps :: step.Field? && '.' in step.name
    decreases |steps|
  {
    var first := Extend("", steps[0]);
    if first == "" {
      DotComesFromAName(steps[1..]);
    } else {
      RenderIsWritten(first, steps[1..]);
      assert steps[0] in steps && first[0] == '.';
    }
  }

  lemma EmptyFirstNameIsLost(steps: seq<Step>)
    requires |steps| > 1 && steps[0] == Field("") && steps[1].Field?
    ensures Parsed(Render("", steps)) != steps
  {
    var path := Render("", steps);
    if Parsed(path) == steps {
      assert HeadSteps(CutDot(path).0)[0] == Field("");
      assert path[0] == '.' || CutDot(path).0 != "";
      DotComesFromAName(steps);
      var step :| step in steps && step.Field? && '.' in step.name;
      ParsedNamesHaveNoDot(path, step);
    }
  }

  /** The reader takes the steps that were written exactly when they are readable. */
  lemma ParsedIffReadable(steps: seq<Step>)
    ensures Parsed(Render("", steps)) == steps <==> Readable(steps, true)
  {
    if steps != [] {
      var rest := steps[1..];
      assert steps == [steps[0]] + rest;
      if steps[0].Items? {
        RenderIsWritten("[]", rest);
        LongHead("[]", Written(rest));
      } else if steps[0].name != "" {
        RenderIsWritten(steps[0].name, rest);
        ParsedBack(steps[0].name, rest);
      } else if rest != [] {
        if rest[0].Items? {
          RenderIsWritten("[]", rest[1..]);
          assert Written(rest) == "[]" + Written(rest[1..]) && "" + Written(rest) == Written(rest);
          assert Extend("", steps[0]) == "" && Extend("", rest[0]) == "[]";
          assert Render("", steps) == Render("", rest) == Render("[]", rest[1..]);
          ParsedBack("", rest);
        } else {
          EmptyFirstNameIsLost(steps);
        }
      }
    }
  }

  /** The reader finds at a rendered path exactly the texts the steps lead to. */
  lemma PathsReadBack(doc: Json, steps: seq<Step>)
    requires Readable(steps, true)
    ensures ValuesAt(doc, Render("", steps)) == Texts(Select(doc, steps))
  {
    ParsedIffReadable(steps);
    ReaderFollowsItsSteps(doc, Render("", steps));
  }

  /** And a path that is not readable is misread in some document: one with a single text, at the end of it. */
  lemma ReadBackExactlyWhenReadable(steps: seq<Step>)
    ensures (forall doc :: ValuesAt(doc, Render("", steps)) == Texts(Select(doc, steps))) <==> Readable(steps, true)
  {
    if Readable(steps, true) {
      forall doc ensures ValuesAt(doc, Render("", steps)) == Texts(Select(doc, steps)) {
        PathsReadBack(doc, steps);
      }
    } else {
      var doc := Along(steps, Str("x"));
      ParsedIffReadable(steps);
      ReaderFollowsItsSteps(doc, Render("", steps));
      AlongLeadsToLeaf(steps, "x");
      AlongHidesFromOthers(steps, "x", Parsed(Render("", steps)));
      assert Texts([Str("x")]) == ["x"];
    }
  }

  // ---- Arrays of arrays ----

  /** Items are taken twice running, up to the end or the next field. */
  ghost predicate NestsArrays(steps: seq<Step>, k: nat) {
    && 2 <= k <= |steps| && steps[k - 2].Items? && steps[k - 1].Items?
    && (k < |steps| ==> steps[k].Field?)
  }

  /** Wherever items are taken twice running, the run ends somewhere. */
  lemma {:induction false} NestEnds(steps: seq<Step>, i: nat) returns (k: nat)
    requires i + 1 < |steps| && steps[i].Items? && steps[i + 1].Items?
    ensures NestsArrays(steps, k)
    decreases |steps| - i
  {
    if i + 2 < |steps| && steps[i + 2].Items? {
      k := NestEnds(steps, i + 1);
    } else {
      k := i + 2;
    }
  }

  lemma NestIsMisread(steps: seq<Step>, i: nat)
    requires i + 1 < |steps| && steps[i].Items? && steps[i + 1].Items?
    ensures !Readable(steps, true)
  {
    NoNestInReadable(steps, i, true);
  }

  lemma {:induction false} NoNestInReadable(steps: seq<Step>, i: nat, first: bool)
    requires i + 1 < |steps| && steps[i].Items? && steps[i + 1].Items?
    ensures !Readable(steps, first)
    decreases |steps|
  {
    if steps[0].Field? {
      if steps[1].Items? {
        if i >= 2 {
          NoNestInReadable(steps[2..], i - 2, false);
        } else {
          assert steps[2..][0].Items?;
        }
      } else {
        NoNestInReadable(steps[1..], i - 1, false);
      }
    }
  }

  ghost predicate Bracketed(step: Step) {
    step.Field? && EndsInBrackets(step.name)
  }

  /** The text `[][]` before a dot or the end is taken for a field whose own name ends in `[]`. */
  lemma {:induction false} DoubleBracketsNameAField(front: string, tail: string)
    requires tail == "" || tail[0] == '.'
    ensures exists step <- Parsed(front + "[][]" + tail) :: Bracketed(step)
    decreases |front|
  {
    var path := front + "[][]" + tail;
    if '.' in front {
      var n := FirstDot(front);
      var after := front[n + 1..];
      assert path == front[..n] + "." + (after + "[][]" + tail);
      ParsedHead(front[..n], after + "[][]" + tail);
      DoubleBracketsNameAField(after, tail);
      var step :| step in Parsed(after + "[][]" + tail) && Bracketed(step);
      assert step in Parsed(path);
    } else {
      FirstFieldIsBracketed(front, tail);
    }
  }

  lemma FirstFieldIsBracketed(front: string, tail: string)
    requires '.' !in front && (tail == "" || tail[0] == '.')
    ensures Field(front + "[]") in Parsed(front + "[][]" + tail) && Bracketed(Field(front + "[]"))
  {
    var name := front + "[]";
    TwiceBracketed(front);
    assert name[|name| - 2..] == "[]";
    BeforeItems(name, tail);
  }

  lemma TwiceBracketed(front: string)
    ensures front + "[][]" == front + "[]" + "[]"
  {
    var brackets := "[]";
    assert "[][]" == brackets + brackets;
    Regroup(front, brackets, brackets);
  }

  /** What stands before the first name's last `[]` is that name. */
  lemma BeforeItems(name: string, tail: string)
    requires '.' !in name && (tail == "" || tail[0] == '.')
    ensures Field(name) in Parsed(name + "[]" + tail)
  {
    var head := name + "[]";
    BracketedHead(name);
    if tail == "" {
      assert head + tail == head;
      ParsedHead(head, "");
    } else {
      assert head + tail == head + "." + tail[1..];
      ParsedHead(head, tail[1..]);
    }
  }

  lemma FirstDot(s: string) returns (n: nat)
    requires '.' in s
    ensures n < |s| && s[n] == '.' && '.' !in s[..n]
    ensures s == s[..n] + "." + s[n + 1..]
  {
    n := 0;
    while s[n] != '.'
      invariant n < |s| && '.' !in s[..n] && '.' in s[n..]
      decreases |s| - n
    {
      assert s[..n + 1] == s[..n] + [s[n]];
      n := n + 1;
    }
  }

  lemma {:induction false} RenderConcat(path: string, a: seq<Step>, b: seq<Step>)
    ensures Render(path, a + b) == Render(Render(path, a), b)
    decreases |a|
  {
    if a == [] {
      assert a + b == b;
    } else {
      assert (a + b)[0] == a[0] && (a + b)[1..] == a[1..] + b;
      RenderConcat(Extend(path, a[0]), a[1..], b);
    }
  }

  lemma AroundNest(steps: seq<Step>, k: nat) returns (before: seq<Step>, after: seq<Step>)
    requires NestsArrays(steps, k)
    ensures steps == before + ([Items, Items] + after) && (after == [] || after[0].Field?)
  {
    before, after := steps[..k - 2], steps[k..];
  }

  lemma WrittenBegins(steps: seq<Step>)
    requires steps == [] || steps[0].Field?
    ensures Written(steps) == "" || Written(steps)[0] == '.'
  {
  }

  lemma RenderOfNest(steps: seq<Step>, k: nat) returns (front: string, tail: string)
    requires NestsArrays(steps, k)
    ensures Render("", steps) == front + "[][]" + tail && (tail == "" || tail[0] == '.')
  {
    var before, after := AroundNest(steps, k);
    front, tail := Render("", before), Written(after);
    RenderConcat("", before, [Items, Items] + after);
    RenderConcat(front, [Items, Items], after);
    RenderNest(front);
    RenderIsWritten(front + "[][]", after);
    WrittenBegins(after);
  }

  lemma RenderNest(front: string)
    ensures Render(front, [Items, Items]) == front + "[][]"
  {
    var nest, once := [Items, Items], front + "[]";
    assert nest[1..] == [Items] && nest[1..][1..] == [];
    assert Render(front, nest) == Render(once, [Items]) == once + "[]";
    Regroup(front, "[]", "[]");
    assert "[]" + "[]" == "[][]";
  }

  /** No object in the document has a member whose own name ends in `[]`. */
  ghost predicate UnbracketedNames(doc: Json) {
    match doc
    case Obj(members) => forall name <- members :: !EndsInBrackets(name) && UnbracketedNames(members[name])
    case Arr(items) => forall i | 0 <= i < |items| :: UnbracketedNames(items[i])
    case _ => true
  }

  lemma {:induction false} BracketedLeadsNowhere(doc: Json, steps: seq<Step>)
    requires UnbracketedNames(doc) && exists step <- steps :: Bracketed(step)
    ensures Select(doc, steps) == []
    decreases |steps|, 0, 0
  {
    assert steps == [steps[0]] + steps[1..];
    match steps[0]
    case Field(name) =>
      if doc.Obj? && name in doc.members { BracketedLeadsNowhere(doc.members[name], steps[1..]); }
    case Items =>
      if doc.Arr? { EachLeadsNowhere(doc.items, steps); }
  }

  lemma {:induction false} EachLeadsNowhere(items: seq<Json>, steps: seq<Step>)
    requires steps != [] && (forall i | 0 <= i < |items| :: UnbracketedNames(items[i]))
    requires exists step <- steps[1..] :: Bracketed(step)
    ensures SelectEach(items, steps) == []
    decreases |steps| - 1, 1, |items|
  {
    if items != [] {
      BracketedLeadsNowhere(items[0], steps[1..]);
      EachLeadsNowhere(items[1..], steps);
    }
  }

  /** Below an array of arrays, at any depth, nothing is found: the reader looks for a field called `f[]`. */
  lemma NestedArraysAreNotRead(doc: Json, steps: seq<Step>, i: nat)
    requires i + 1 < |steps| && steps[i].Items? && steps[i + 1].Items?
    requires UnbracketedNames(doc)
    ensures ValuesAt(doc, Render("", steps)) == []
  {
    var k := NestEnds(steps, i);
    var front, tail := RenderOfNest(steps, k);
    DoubleBracketsNameAField(front, tail);
    ReaderFollowsItsSteps(doc, Render("", steps));
    BracketedLeadsNowhere(doc, Parsed(Render("", steps)));
  }

  // ---- Violations ----

  lemma {:induction false} OffendingEmpty(path: string, values: seq<string>, actuals: seq<string>)
    ensures Offending(path, values, actuals) == [] <==> forall a <- actuals :: a in values
  {
    if actuals != [] {
      OffendingEmpty(path, values, actuals[1..]);
      assert actuals == [actuals[0]] + actuals[1..];
    }
  }

  ghost predicate AllReadable(found: seq<Constraint>) {
    forall c <- found :: Readable(c.path, true)
  }

  lemma OneConstraint(doc: Json, c: Constraint)
    requires Readable(c.path, true)
    ensures Offending(Render("", c.path), c.values, ValuesAt(doc, Render("", c.path))) == [] <==> Satisfies(doc, c)
  {
    PathsReadBack(doc, c.path);
    OffendingEmpty(Render("", c.path), c.values, Texts(Select(doc, c.path)));
    forall s ensures s in Texts(Select(doc, c.path)) <==> Str(s) in Select(doc, c.path) {
      TextsMembers(Select(doc, c.path), s);
    }
  }

  /** No violations means, and only means, that every constraint is satisfied. */
  lemma {:induction false} NoViolationsMeansSatisfied(doc: Json, found: seq<Constraint>)
    requires AllReadable(found)
    ensures Violations(Emit("", found), doc) == [] <==> SatisfiesAll(doc, found)
  {
    if found != [] {
      OneConstraint(doc, found[0]);
      NoViolationsMeansSatisfied(doc, found[1..]);
      assert found == [found[0]] + found[1..];
      assert Emit("", found)[1..] == Emit("", found[1..]);
    }
  }

  // ---- End to end ----

  /** Generated from the schema, read by the gateway: a document the schema admits is never reported. */
  lemma ValidDocumentsAreNeverReported(defs: Defs, root: Schema, doc: Json)
    requires Walk(defs, root, {}).Some? && AlternativesAgree(defs, root, {})
    requires AllReadable(Walk(defs, root, {}).value)
    requires forall depth: nat :: Valid(depth, defs, root, doc)
    ensures Violations(Emit("", Walk(defs, root, {}).value), doc) == []
  {
    CollectedIsSound(defs, root, doc);
    NoViolationsMeansSatisfied(doc, Walk(defs, root, {}).value);
  }

  /** Where no enum is reached through a circle of references, a document is reported exactly when it breaks the enum
      part of the schema. */
  lemma ReportedExactlyWhenAnEnumIsBroken(
    defs: Defs, root: Schema, doc: Json, rank: map<string, nat>, free: set<string>, bound: nat)
    requires Walk(defs, root, {}).Some? && AlternativesAgree(defs, root, {})
    requires AllReadable(Walk(defs, root, {}).value)
    requires Grounded(defs, root, rank, free, bound)
    ensures Violations(Emit("", Walk(defs, root, {}).value), doc) == [] <==> EnumPart(defs, root, doc)
  {
    CollectedIsExact(defs, root, doc, rank, free, bound);
    NoViolationsMeansSatisfied(doc, Walk(defs, root, {}).value);
  }

  lemma {:induction false} OffendingMembers(path: string, values: seq<string>, actuals: seq<string>, v: Violation)
    ensures v in Offending(path, values, actuals) <==> v.path == path && v.actual in actuals && v.actual !in values
  {
    if actuals != [] {
      OffendingMembers(path, values, actuals[1..], v);
      assert actuals == [actuals[0]] + actuals[1..];
    }
  }

  /** `v` names the path of constraint `c`, and a text found there that `c` does not allow. */
  ghost predicate Breaks(doc: Json, c: Constraint, v: Violation) {
    v.path == Render("", c.path) && Str(v.actual) in Select(doc, c.path) && v.actual !in c.values
  }

  /** What is reported, path and text, is what breaks a constraint of the list. */
  lemma {:induction false} ReportedIsWhatBreaks(doc: Json, found: seq<Constraint>, v: Violation)
    requires AllReadable(found)
    ensures v in Violations(Emit("", found), doc) <==> exists c <- found :: Breaks(doc, c, v)
  {
    if found != [] {
      var c, path := found[0], Render("", found[0].path);
      PathsReadBack(doc, c.path);
      OffendingMembers(path, c.values, Texts(Select(doc, c.path)), v);
      TextsMembers(Select(doc, c.path), v.actual);
      ReportedIsWhatBreaks(doc, found[1..], v);
      assert found == [c] + found[1..];
      assert Breaks(doc, c, v) <==> v in Offending(path, c.values, ValuesAt(doc, path));
    }
  }
}
