/** What the collected constraints say of a document, compared with what the schema says of it. */
module ContractMeaning {
  import opened Wrappers
  import opened Json
  import opened Contract
  import opened ContractLists

  // ---- The list, taken apart ----

  lemma {:induction false} BranchesSplit(defs: Defs, node: Schema, i: nat, seen: set<string>, doc: Json)
    requires node.anyOf.AnyOf? && i <= |node.anyOf.branches|
    requires WalkBranches(defs, node, i, seen).Some?
    ensures forall j | i <= j < |node.anyOf.branches| && !IsNull(node.anyOf.branches[j]) ::
              Walk(defs, node.anyOf.branches[j], seen).Some?
    ensures SatisfiesAll(doc, WalkBranches(defs, node, i, seen).value) <==>
            forall j | i <= j < |node.anyOf.branches| && !IsNull(node.anyOf.branches[j]) ::
              SatisfiesAll(doc, Walk(defs, node.anyOf.branches[j], seen).value)
    decreases |node.anyOf.branches| - i
  {
    if i < |node.anyOf.branches| {
      BranchesSplit(defs, node, i + 1, seen, doc);
      var head := if IsNull(node.anyOf.branches[i]) then [] else Walk(defs, node.anyOf.branches[i], seen).value;
      SatisfiesBoth(doc, head, WalkBranches(defs, node, i + 1, seen).value);
    }
  }

  lemma SatisfiesBoth(doc: Json, a: seq<Constraint>, b: seq<Constraint>)
    ensures SatisfiesAll(doc, a + b) <==> SatisfiesAll(doc, a) && SatisfiesAll(doc, b)
  {
    assert forall c :: c in a + b <==> c in a || c in b;
  }

  lemma {:induction false} FieldsSplit(defs: Defs, node: Schema, i: nat, seen: set<string>, doc: Json)
    requires i <= |node.properties| && WalkFields(defs, node, i, seen).Some?
    ensures forall j | i <= j < |node.properties| :: Walk(defs, node.properties[j].spec, seen).Some?
    ensures SatisfiesAll(doc, WalkFields(defs, node, i, seen).value) <==>
            forall j | i <= j < |node.properties| :: doc.Obj? && node.properties[j].name in doc.members ==>
              SatisfiesAll(doc.members[node.properties[j].name], Walk(defs, node.properties[j].spec, seen).value)
    decreases |node.properties| - i
  {
    if i < |node.properties| {
      var p := node.properties[i];
      FieldsSplit(defs, node, i + 1, seen, doc);
      var head := Walk(defs, p.spec, seen).value;
      FieldSatisfies(doc, p.name, head);
      SatisfiesBoth(doc, Under(Field(p.name), head), WalkFields(defs, node, i + 1, seen).value);
    }
  }

  lemma {:induction false} NonNullCount(branches: seq<Schema>, i: nat, j: nat)
    requires i < j < |branches| && !IsNull(branches[i]) && !IsNull(branches[j])
    ensures NonNull(branches) >= 2
  {
    if i == 0 {
      SomeNonNull(branches[1..], j - 1);
    } else {
      NonNullCount(branches[1..], i - 1, j - 1);
    }
  }

  lemma {:induction false} SomeNonNull(branches: seq<Schema>, j: nat)
    requires j < |branches| && !IsNull(branches[j])
    ensures NonNull(branches) >= 1
  {
    if j > 0 { SomeNonNull(branches[1..], j - 1); }
  }

  lemma {:induction false} NonNullExists(branches: seq<Schema>) returns (i: nat)
    requires NonNull(branches) >= 1
    ensures i < |branches| && !IsNull(branches[i])
  {
    if !IsNull(branches[0]) {
      i := 0;
    } else {
      var k := NonNullExists(branches[1..]);
      i := k + 1;
    }
  }

  // ---- Alternatives ----

  ghost predicate Alternative(node: Schema, i: int) {
    node.anyOf.AnyOf? && 0 <= i < |node.anyOf.branches| && !IsNull(node.anyOf.branches[i])
  }

  /** What is collected below alternative `i` of a choice. */
  function ListOf(defs: Defs, node: Schema, i: int, seen: set<string>): seq<Constraint>
    requires node.anyOf.AnyOf? && 0 <= i < |node.anyOf.branches|
  {
    Walk(defs, node.anyOf.branches[i], seen).GetOr([])
  }

  lemma ListIsAllAlternatives(defs: Defs, node: Schema, seen: set<string>, doc: Json)
    requires node.ref.None? && node.anyOf.AnyOf? && Walk(defs, node, seen).Some?
    ensures SatisfiesAll(doc, Walk(defs, node, seen).value) <==>
            forall j | Alternative(node, j) :: SatisfiesAll(doc, ListOf(defs, node, j, seen))
    ensures forall j | Alternative(node, j) :: Walk(defs, node.anyOf.branches[j], seen).Some?
  {
    BranchesSplit(defs, node, 0, seen, doc);
    if forall j | Alternative(node, j) :: SatisfiesAll(doc, ListOf(defs, node, j, seen)) {
      forall j | 0 <= j < |node.anyOf.branches| && !IsNull(node.anyOf.branches[j])
        ensures SatisfiesAll(doc, Walk(defs, node.anyOf.branches[j], seen).value)
      {
        assert Alternative(node, j);
      }
    }
  }

  /** At every choice the walk meets, inside other choices too, each alternative demands what every other does. */
  ghost predicate AlternativesAgree(defs: Defs, node: Schema, seen: set<string>)
    decreases defs.Keys - seen, node
  {
    if node.ref.Some? then
      var name := node.ref.value;
      name in seen || name !in defs ||
      (assert name in defs.Keys - seen && name !in defs.Keys - (seen + {name});
       AlternativesAgree(defs, defs[name], seen + {name}))
    else if node.anyOf.AnyOf? then
      && (forall i | Alternative(node, i) :: AlternativesAgree(defs, node.anyOf.branches[i], seen))
      && (forall i, j | Alternative(node, i) && Alternative(node, j) ::
            DemandsAll(ListOf(defs, node, i, seen), ListOf(defs, node, j, seen)))
    else if node.values.Some? && node.values.value != [] && node.types == One("string") then true
    else if node.types == One("array") && node.items.Some? then AlternativesAgree(defs, node.items.value, seen)
    else forall i | 0 <= i < |node.properties| :: AlternativesAgree(defs, node.properties[i].spec, seen)
  }

  /** Along the walk every choice has at most one branch that is not null, or constrains nothing. */
  predicate OneChoice(defs: Defs, node: Schema, seen: set<string>)
    decreases defs.Keys - seen, node
  {
    if node.ref.Some? then
      var name := node.ref.value;
      name in seen || name !in defs ||
      (assert name in defs.Keys - seen && name !in defs.Keys - (seen + {name});
       OneChoice(defs, defs[name], seen + {name}))
    else if node.anyOf.AnyOf? then
      || Walk(defs, node, seen) == Some([])
      || (NonNull(node.anyOf.branches) <= 1
          && forall i | 0 <= i < |node.anyOf.branches| ::
               IsNull(node.anyOf.branches[i]) || OneChoice(defs, node.anyOf.branches[i], seen))
    else if node.types == One("array") && node.items.Some? then OneChoice(defs, node.items.value, seen)
    else forall i | 0 <= i < |node.properties| :: OneChoice(defs, node.properties[i].spec, seen)
  }

  /** One real alternative agrees with itself, and alternatives that constrain nothing agree. */
  lemma {:induction false} OneChoiceAgrees(defs: Defs, node: Schema, seen: set<string>)
    requires Walk(defs, node, seen).Some? && OneChoice(defs, node, seen)
    ensures AlternativesAgree(defs, node, seen)
    decreases defs.Keys - seen, node
  {
    if node.ref.Some? {
      if node.ref.value !in seen {
        assert node.ref.value in defs.Keys - seen;
        OneChoiceAgrees(defs, defs[node.ref.value], seen + {node.ref.value});
      }
    } else if Walk(defs, node, seen) == Some([]) {
      NothingCollectedAgrees(defs, node, seen);
    } else if node.anyOf.AnyOf? {
      ListIsAllAlternatives(defs, node, seen, Null);
      forall i | Alternative(node, i) ensures AlternativesAgree(defs, node.anyOf.branches[i], seen) {
        OneChoiceAgrees(defs, node.anyOf.branches[i], seen);
      }
      forall i, j | Alternative(node, i) && Alternative(node, j)
        ensures DemandsAll(ListOf(defs, node, i, seen), ListOf(defs, node, j, seen))
      {
        if i < j { NonNullCount(node.anyOf.branches, i, j); }
        if j < i { NonNullCount(node.anyOf.branches, j, i); }
        ListDemandsItself(ListOf(defs, node, i, seen));
      }
    } else if !(node.values.Some? && node.values.value != [] && node.types == One("string")) {
      if node.types == One("array") && node.items.Some? {
        OneChoiceAgrees(defs, node.items.value, seen);
      } else {
        FieldsSplit(defs, node, 0, seen, Null);
        forall i | 0 <= i < |node.properties| ensures AlternativesAgree(defs, node.properties[i].spec, seen) {
          OneChoiceAgrees(defs, node.properties[i].spec, seen);
        }
      }
    }
  }

  lemma {:induction false} NothingCollectedAgrees(defs: Defs, node: Schema, seen: set<string>)
    requires Walk(defs, node, seen) == Some([])
    ensures AlternativesAgree(defs, node, seen)
    decreases defs.Keys - seen, node
  {
    if node.ref.Some? {
      if node.ref.value !in seen {
        assert node.ref.value in defs.Keys - seen;
        NothingCollectedAgrees(defs, defs[node.ref.value], seen + {node.ref.value});
      }
    } else if node.anyOf.AnyOf? {
      forall i | Alternative(node, i)
        ensures ListOf(defs, node, i, seen) == [] && AlternativesAgree(defs, node.anyOf.branches[i], seen)
      {
        NothingBelow(defs, node, 0, seen, i);
        NothingCollectedAgrees(defs, node.anyOf.branches[i], seen);
      }
    } else if !(node.values.Some? && node.values.value != [] && node.types == One("string")) {
      if node.types == One("array") && node.items.Some? {
        UnderMembers(Items, Walk(defs, node.items.value, seen).value);
        NothingCollectedAgrees(defs, node.items.value, seen);
      } else {
        forall j | 0 <= j < |node.properties| ensures AlternativesAgree(defs, node.properties[j].spec, seen) {
          NoFieldBelow(defs, node, 0, seen, j);
          NothingCollectedAgrees(defs, node.properties[j].spec, seen);
        }
      }
    }
  }

  lemma {:induction false} NothingBelow(defs: Defs, node: Schema, i: nat, seen: set<string>, j: nat)
    requires node.anyOf.AnyOf? && i <= j < |node.anyOf.branches| && !IsNull(node.anyOf.branches[j])
    requires WalkBranches(defs, node, i, seen) == Some([])
    ensures Walk(defs, node.anyOf.branches[j], seen) == Some([])
    decreases |node.anyOf.branches| - i
  {
    if i < j { NothingBelow(defs, node, i + 1, seen, j); }
  }

  lemma {:induction false} NoFieldBelow(defs: Defs, node: Schema, i: nat, seen: set<string>, j: nat)
    requires i <= j < |node.properties| && WalkFields(defs, node, i, seen) == Some([])
    ensures Walk(defs, node.properties[j].spec, seen) == Some([])
    decreases |node.properties| - i
  {
    var p := node.properties[i];
    UnderMembers(Field(p.name), Walk(defs, p.spec, seen).value);
    if i < j {
      NoFieldBelow(defs, node, i + 1, seen, j);
    }
  }

  // ---- Soundness ----

  lemma OneFewer(defs: Defs, seen: set<string>, name: string)
    requires name in defs && name !in seen
    ensures |defs.Keys - (seen + {name})| == |defs.Keys - seen| - 1
  {
    assert defs.Keys - (seen + {name}) == (defs.Keys - seen) - {name};
  }

  lemma {:induction false} RefImpliesConstraints(depth: nat, defs: Defs, node: Schema, seen: set<string>, doc: Json)
    requires node.ref.Some? && Walk(defs, node, seen).Some? && AlternativesAgree(defs, node, seen)
    requires |defs.Keys - seen| <= depth && EnumsHold(depth, defs, node, doc)
    ensures SatisfiesAll(doc, Walk(defs, node, seen).value)
    decreases depth, node, 0
  {
    var name := node.ref.value;
    if name !in seen {
      OneFewer(defs, seen, name);
      EnumsImplyConstraints(depth - 1, defs, defs[name], seen + {name}, doc);
    }
  }

  lemma {:induction false} EnumsImplyConstraints(depth: nat, defs: Defs, node: Schema, seen: set<string>, doc: Json)
    requires Walk(defs, node, seen).Some? && AlternativesAgree(defs, node, seen)
    requires |defs.Keys - seen| <= depth && EnumsHold(depth, defs, node, doc)
    ensures SatisfiesAll(doc, Walk(defs, node, seen).value)
    decreases depth, node, 1
  {
    if node.ref.Some? {
      RefImpliesConstraints(depth, defs, node, seen, doc);
    } else if node.anyOf.AnyOf? {
      ChoiceImpliesConstraints(depth, defs, node, seen, doc);
    } else if node.values.Some? && node.values.value != [] && node.types == One("string") {
      assert Select(doc, []) == [doc];
    } else if node.types == One("array") && node.items.Some? {
      ItemsImplyConstraints(depth, defs, node, seen, doc);
    } else {
      FieldsImplyConstraints(depth, defs, node, seen, doc);
    }
  }

  lemma {:induction false} ItemsImplyConstraints(depth: nat, defs: Defs, node: Schema, seen: set<string>, doc: Json)
    requires node.items.Some? && Walk(defs, node.items.value, seen).Some?
             && AlternativesAgree(defs, node.items.value, seen)
    requires |defs.Keys - seen| <= depth && EnumsHold(depth, defs, node, doc)
    ensures SatisfiesAll(doc, Under(Items, Walk(defs, node.items.value, seen).value))
    decreases depth, node, 0
  {
    if doc.Arr? {
      forall k | 0 <= k < |doc.items| ensures SatisfiesAll(doc.items[k], Walk(defs, node.items.value, seen).value) {
        EnumsImplyConstraints(depth, defs, node.items.value, seen, doc.items[k]);
      }
    }
    ItemsSatisfy(doc, Walk(defs, node.items.value, seen).value);
  }

  lemma {:induction false} FieldsImplyConstraints(depth: nat, defs: Defs, node: Schema, seen: set<string>, doc: Json)
    requires WalkFields(defs, node, 0, seen).Some?
    requires forall i | 0 <= i < |node.properties| :: AlternativesAgree(defs, node.properties[i].spec, seen)
    requires |defs.Keys - seen| <= depth && EnumsHold(depth, defs, node, doc)
    ensures SatisfiesAll(doc, WalkFields(defs, node, 0, seen).value)
    decreases depth, node, 0
  {
    FieldsSplit(defs, node, 0, seen, doc);
    forall j | 0 <= j < |node.properties| && doc.Obj? && node.properties[j].name in doc.members
      ensures SatisfiesAll(doc.members[node.properties[j].name], Walk(defs, node.properties[j].spec, seen).value)
    {
      EnumsImplyConstraints(depth, defs, node.properties[j].spec, seen, doc.members[node.properties[j].name]);
    }
  }

  lemma {:induction false} ChoiceImpliesConstraints(depth: nat, defs: Defs, node: Schema, seen: set<string>, doc: Json)
    requires node.ref.None? && node.anyOf.AnyOf?
    requires Walk(defs, node, seen).Some? && AlternativesAgree(defs, node, seen)
    requires |defs.Keys - seen| <= depth && EnumsHold(depth, defs, node, doc)
    ensures SatisfiesAll(doc, Walk(defs, node, seen).value)
    decreases depth, node, 0
  {
    var branches := node.anyOf.branches;
    ListIsAllAlternatives(defs, node, seen, doc);
    var i :| 0 <= i < |branches| && if IsNull(branches[i]) then doc.Null? else EnumsHold(depth, defs, branches[i], doc);
    if IsNull(branches[i]) {
      NullSatisfies(Walk(defs, node, seen).value);
    } else {
      assert Alternative(node, i);
      EnumsImplyConstraints(depth, defs, branches[i], seen, doc);
      forall j | Alternative(node, j) ensures SatisfiesAll(doc, ListOf(defs, node, j, seen)) {
        ImpliesIffDemandsAll(ListOf(defs, node, i, seen), ListOf(defs, node, j, seen));
      }
    }
  }

  /** Where alternatives agree, a document the schema admits satisfies every constraint collected from it, however the
      references cycle. */
  lemma CollectedIsSound(defs: Defs, root: Schema, doc: Json)
    requires Walk(defs, root, {}).Some? && AlternativesAgree(defs, root, {})
    requires forall depth: nat :: Valid(depth, defs, root, doc)
    ensures SatisfiesAll(doc, Walk(defs, root, {}).value)
  {
    var depth := |defs.Keys|;
    assert defs.Keys - {} == defs.Keys;
    ValidImpliesEnums(depth, defs, root, doc);
    EnumsImplyConstraints(depth, defs, root, {}, doc);
  }

  // ---- Exactness ----

  /** Each node speaks in one way only, so nothing beside the keyword the walk follows is lost. Property names are
      distinct, as in every JSON object. */
  predicate OneForm(node: Schema)
    decreases node
  {
    && (node.ref.Some? ==> node.anyOf.NoChoice? && node.values.None? && node.items.None? && node.properties == [])
    && (node.anyOf.AnyOf? ==>
          && node.values.None? && node.items.None? && node.properties == [] && NonNull(node.anyOf.branches) >= 1
          && forall i | 0 <= i < |node.anyOf.branches| :: OneForm(node.anyOf.branches[i]))
    && (node.values.Some? && node.types == One("string") ==>
          node.values.value != [] && node.items.None? && node.properties == [])
    && (node.items.Some? ==> node.types == One("array") && node.properties == [] && OneForm(node.items.value))
    && (forall i | 0 <= i < |node.properties| :: OneForm(node.properties[i].spec))
    && (forall i, j | 0 <= i < j < |node.properties| :: node.properties[i].name != node.properties[j].name)
  }

  /** No enum is found below `node`: it holds none, and refers only to definitions of `free`. */
  predicate EnumFree(free: set<string>, node: Schema)
    decreases node
  {
    && (node.ref.Some? ==> node.ref.value in free)
    && (node.anyOf.AnyOf? ==>
          NonNull(node.anyOf.branches) >= 1
          && forall i | 0 <= i < |node.anyOf.branches| :: EnumFree(free, node.anyOf.branches[i]))
    && !(node.values.Some? && node.types == One("string"))
    && (node.items.Some? ==> EnumFree(free, node.items.value))
    && (forall i | 0 <= i < |node.properties| :: EnumFree(free, node.properties[i].spec))
  }

  /** Every definition `node` refers to holds no enum, or is ranked below `bound`. */
  predicate RefsBelow(rank: map<string, nat>, free: set<string>, node: Schema, bound: nat)
    decreases node
  {
    && (node.ref.Some? ==> node.ref.value in free || (node.ref.value in rank && rank[node.ref.value] < bound))
    && (node.anyOf.AnyOf? ==>
          forall i | 0 <= i < |node.anyOf.branches| :: RefsBelow(rank, free, node.anyOf.branches[i], bound))
    && (node.items.Some? ==> RefsBelow(rank, free, node.items.value, bound))
    && (forall i | 0 <= i < |node.properties| :: RefsBelow(rank, free, node.properties[i].spec, bound))
  }

  /** The ranked definitions refer downwards, to ranked ones or to those that hold no enum; the latter may refer to each
      other in circles. Definitions that are neither are not reached, and nothing is asked of them. */
  ghost predicate Founded(defs: Defs, rank: map<string, nat>, free: set<string>) {
    && (forall name <- rank :: name in defs && OneForm(defs[name]) && RefsBelow(rank, free, defs[name], rank[name]))
    && (forall name <- free :: name in defs && EnumFree(free, defs[name]))
  }

  /** What exactness is about: a root in one form whose references are founded. */
  ghost predicate Grounded(defs: Defs, root: Schema, rank: map<string, nat>, free: set<string>, bound: nat) {
    Founded(defs, rank, free) && OneForm(root) && RefsBelow(rank, free, root, bound)
  }

  ghost predicate SeenAbove(seen: set<string>, rank: map<string, nat>, bound: nat) {
    forall name <- seen :: name in rank && rank[name] >= bound
  }

  lemma {:induction false} NoEnumHolds(depth: nat, defs: Defs, node: Schema, free: set<string>, doc: Json)
    requires EnumFree(free, node) && forall name <- free :: name in defs && EnumFree(free, defs[name])
    ensures EnumsHold(depth, defs, node, doc)
    decreases depth, node
  {
    if node.ref.Some? && depth > 0 {
      NoEnumHolds(depth - 1, defs, defs[node.ref.value], free, doc);
    }
    if node.anyOf.AnyOf? {
      var i := NonNullExists(node.anyOf.branches);
      NoEnumHolds(depth, defs, node.anyOf.branches[i], free, doc);
    }
    if node.items.Some? && doc.Arr? {
      forall k | 0 <= k < |doc.items| ensures EnumsHold(depth, defs, node.items.value, doc.items[k]) {
        NoEnumHolds(depth, defs, node.items.value, free, doc.items[k]);
      }
    }
    if doc.Obj? {
      forall i | 0 <= i < |node.properties| && node.properties[i].name in doc.members
        ensures EnumsHold(depth, defs, node.properties[i].spec, doc.members[node.properties[i].name])
      {
        NoEnumHolds(depth, defs, node.properties[i].spec, free, doc.members[node.properties[i].name]);
      }
    }
  }

  lemma NothingTwice()
    ensures Both(Some([]), Some([])) == Some([])
  {
    var none: seq<Constraint> := [];
    assert none + none == none;
  }

  lemma {:induction false} NothingFound(defs: Defs, node: Schema, free: set<string>, seen: set<string>)
    requires EnumFree(free, node) && forall name <- free :: name in defs && EnumFree(free, defs[name])
    ensures Walk(defs, node, seen) == Some([])
    decreases defs.Keys - seen, node, 2, 0
  {
    if node.ref.Some? {
      if node.ref.value !in seen {
        assert node.ref.value in defs.Keys - seen;
        NothingFound(defs, defs[node.ref.value], free, seen + {node.ref.value});
      }
    } else if node.anyOf.AnyOf? {
      NothingFoundInBranches(defs, node, free, 0, seen);
    } else if node.types == One("array") && node.items.Some? {
      NothingFound(defs, node.items.value, free, seen);
    } else {
      NothingFoundInFields(defs, node, free, 0, seen);
    }
  }

  lemma {:induction false} NothingFoundInBranches(defs: Defs, node: Schema, free: set<string>, i: nat,
                                                  seen: set<string>)
    requires EnumFree(free, node) && forall name <- free :: name in defs && EnumFree(free, defs[name])
    requires node.anyOf.AnyOf? && i <= |node.anyOf.branches|
    ensures WalkBranches(defs, node, i, seen) == Some([])
    decreases defs.Keys - seen, node, 1, |node.anyOf.branches| - i
  {
    if i < |node.anyOf.branches| {
      NothingFound(defs, node.anyOf.branches[i], free, seen);
      NothingFoundInBranches(defs, node, free, i + 1, seen);
      NothingTwice();
    }
  }

  lemma {:induction false} NothingFoundInFields(defs: Defs, node: Schema, free: set<string>, i: nat, seen: set<string>)
    requires EnumFree(free, node) && forall name <- free :: name in defs && EnumFree(free, defs[name])
    requires i <= |node.properties|
    ensures WalkFields(defs, node, i, seen) == Some([])
    decreases defs.Keys - seen, node, 1, |node.properties| - i
  {
    if i < |node.properties| {
      NothingFound(defs, node.properties[i].spec, free, seen);
      NothingFoundInFields(defs, node, free, i + 1, seen);
      NothingTwice();
    }
  }

  /** Whatever satisfies the list satisfies the enum part: the list is never too weak. */
  lemma EnumIsChecked(doc: Json, values: seq<string>)
    ensures SatisfiesAll(doc, [Constraint([], values)]) ==> (doc.Str? ==> doc.s in values)
  {
    assert Select(doc, []) == [doc];
    assert Constraint([], values) in [Constraint([], values)];
  }

  lemma {:induction false} ConstraintsImplyEnums(
    depth: nat, defs: Defs, node: Schema, seen: set<string>, doc: Json,
    rank: map<string, nat>, free: set<string>, bound: nat)
    requires Walk(defs, node, seen).Some? && Grounded(defs, node, rank, free, bound) && SeenAbove(seen, rank, bound)
    requires SatisfiesAll(doc, Walk(defs, node, seen).value)
    ensures EnumsHold(depth, defs, node, doc)
    decreases depth, node
  {
    if node.ref.Some? {
      var name := node.ref.value;
      if depth > 0 {
        if name in free {
          NoEnumHolds(depth - 1, defs, defs[name], free, doc);
        } else {
          ConstraintsImplyEnums(depth - 1, defs, defs[name], seen + {name}, doc, rank, free, rank[name]);
        }
      }
    } else if node.anyOf.AnyOf? {
      ListIsAllAlternatives(defs, node, seen, doc);
      var i := NonNullExists(node.anyOf.branches);
      assert Alternative(node, i);
      ConstraintsImplyEnums(depth, defs, node.anyOf.branches[i], seen, doc, rank, free, bound);
    } else if node.values.Some? && node.types == One("string") {
      EnumIsChecked(doc, node.values.value);
    } else if node.items.Some? {
      ItemsSatisfy(doc, Walk(defs, node.items.value, seen).value);
      if doc.Arr? {
        forall k | 0 <= k < |doc.items| ensures EnumsHold(depth, defs, node.items.value, doc.items[k]) {
          ConstraintsImplyEnums(depth, defs, node.items.value, seen, doc.items[k], rank, free, bound);
        }
      }
    } else {
      FieldsSplit(defs, node, 0, seen, doc);
      if doc.Obj? {
        forall j | 0 <= j < |node.properties| && node.properties[j].name in doc.members
          ensures EnumsHold(depth, defs, node.properties[j].spec, doc.members[node.properties[j].name])
        {
          ConstraintsImplyEnums(
            depth, defs, node.properties[j].spec, seen, doc.members[node.properties[j].name], rank, free, bound);
        }
      }
    }
  }

  /** The enum part of `root` admits `doc`, however far its references are followed. */
  ghost predicate EnumPart(defs: Defs, root: Schema, doc: Json) {
    forall depth: nat :: EnumsHold(depth, defs, root, doc)
  }

  /** Every document the enum part admits satisfies the list collected with `seen` already followed. */
  ghost predicate SoundForEnums(defs: Defs, node: Schema, seen: set<string>)
    requires Walk(defs, node, seen).Some?
  {
    forall doc | EnumPart(defs, node, doc) :: SatisfiesAll(doc, Walk(defs, node, seen).value)
  }

  // ---- From the soundness of a node to that of what lies in it ----

  lemma TargetIsSound(defs: Defs, node: Schema, seen: set<string>)
    requires Walk(defs, node, seen).Some? && SoundForEnums(defs, node, seen) && OneForm(node)
    requires node.ref.Some? && node.ref.value in defs && node.ref.value !in seen
    ensures var name := node.ref.value;
            Walk(defs, defs[name], seen + {name}).Some? && SoundForEnums(defs, defs[name], seen + {name})
  {
    var name := node.ref.value;
    assert name in defs.Keys - seen;
    forall doc | EnumPart(defs, defs[name], doc)
      ensures SatisfiesAll(doc, Walk(defs, defs[name], seen + {name}).value)
    {
      forall depth: nat ensures EnumsHold(depth, defs, node, doc) {
        if depth > 0 { assert EnumsHold(depth - 1, defs, defs[name], doc); }
      }
      assert EnumPart(defs, node, doc);
    }
  }

  lemma AlternativeAdmits(defs: Defs, node: Schema, i: int, doc: Json)
    requires OneForm(node) && node.ref.None? && Alternative(node, i) && EnumPart(defs, node.anyOf.branches[i], doc)
    ensures EnumPart(defs, node, doc)
  {
    forall depth: nat ensures EnumsHold(depth, defs, node, doc) {
      assert EnumsHold(depth, defs, node.anyOf.branches[i], doc);
    }
  }

  lemma AlternativeIsSound(defs: Defs, node: Schema, i: int, seen: set<string>)
    requires Walk(defs, node, seen).Some? && SoundForEnums(defs, node, seen)
    requires OneForm(node) && node.ref.None? && Alternative(node, i)
    ensures Walk(defs, node.anyOf.branches[i], seen).Some? && SoundForEnums(defs, node.anyOf.branches[i], seen)
  {
    ListIsAllAlternatives(defs, node, seen, Null);
    forall doc | EnumPart(defs, node.anyOf.branches[i], doc) ensures SatisfiesAll(doc, ListOf(defs, node, i, seen)) {
      AlternativeAdmits(defs, node, i, doc);
      ListIsAllAlternatives(defs, node, seen, doc);
    }
  }

  lemma AlternativesDemand(
    defs: Defs, node: Schema, i: int, j: int, seen: set<string>, rank: map<string, nat>, free: set<string>, bound: nat)
    requires Walk(defs, node, seen).Some? && SoundForEnums(defs, node, seen)
    requires Grounded(defs, node, rank, free, bound) && SeenAbove(seen, rank, bound)
    requires node.ref.None? && Alternative(node, i) && Alternative(node, j)
    ensures DemandsAll(ListOf(defs, node, i, seen), ListOf(defs, node, j, seen))
  {
    var a, b := ListOf(defs, node, i, seen), ListOf(defs, node, j, seen);
    ListIsAllAlternatives(defs, node, seen, Null);
    forall doc | SatisfiesAll(doc, a) ensures SatisfiesAll(doc, b) {
      forall depth: nat ensures EnumsHold(depth, defs, node.anyOf.branches[i], doc) {
        ConstraintsImplyEnums(depth, defs, node.anyOf.branches[i], seen, doc, rank, free, bound);
      }
      AlternativeAdmits(defs, node, i, doc);
      ListIsAllAlternatives(defs, node, seen, doc);
    }
    ImpliesIffDemandsAll(a, b);
  }

  lemma ItemsAreSound(defs: Defs, node: Schema, seen: set<string>)
    requires Walk(defs, node, seen).Some? && SoundForEnums(defs, node, seen) && OneForm(node)
    requires node.ref.None? && node.anyOf.NoChoice? && node.items.Some?
    ensures Walk(defs, node.items.value, seen).Some? && SoundForEnums(defs, node.items.value, seen)
  {
    var item := node.items.value;
    forall one | EnumPart(defs, item, one) ensures SatisfiesAll(one, Walk(defs, item, seen).value) {
      var doc := Arr([one]);
      forall depth: nat ensures EnumsHold(depth, defs, node, doc) {
        assert EnumsHold(depth, defs, item, one);
      }
      assert EnumPart(defs, node, doc);
      ItemsSatisfy(doc, Walk(defs, item, seen).value);
      assert doc.items[0] == one;
    }
  }

  lemma FieldIsSound(defs: Defs, node: Schema, j: nat, seen: set<string>)
    requires Walk(defs, node, seen).Some? && SoundForEnums(defs, node, seen) && OneForm(node)
    requires node.ref.None? && node.anyOf.NoChoice? && j < |node.properties|
    ensures Walk(defs, node.properties[j].spec, seen).Some? && SoundForEnums(defs, node.properties[j].spec, seen)
  {
    var p := node.properties[j];
    FieldsSplit(defs, node, 0, seen, Null);
    forall one | EnumPart(defs, p.spec, one) ensures SatisfiesAll(one, Walk(defs, p.spec, seen).value) {
      var doc := Obj(map[p.name := one]);
      forall depth: nat ensures EnumsHold(depth, defs, node, doc) {
        assert EnumsHold(depth, defs, p.spec, one);
        forall i | 0 <= i < |node.properties| && node.properties[i].name in doc.members ensures i == j {
        }
      }
      assert EnumPart(defs, node, doc);
      FieldsSplit(defs, node, 0, seen, doc);
    }
  }

  /** If every document the enum part admits satisfies the list, the alternatives agree at every choice on the way. */
  lemma {:induction false} SoundMeansAgreed(
    defs: Defs, node: Schema, seen: set<string>, rank: map<string, nat>, free: set<string>, bound: nat)
    requires Walk(defs, node, seen).Some? && SoundForEnums(defs, node, seen)
    requires Grounded(defs, node, rank, free, bound) && SeenAbove(seen, rank, bound)
    ensures AlternativesAgree(defs, node, seen)
    decreases defs.Keys - seen, node
  {
    if node.ref.Some? {
      var name := node.ref.value;
      if name in free {
        NothingFound(defs, node, free, seen);
        NothingCollectedAgrees(defs, node, seen);
      } else {
        assert name in defs.Keys - seen;
        TargetIsSound(defs, node, seen);
        SoundMeansAgreed(defs, defs[name], seen + {name}, rank, free, rank[name]);
      }
    } else if node.anyOf.AnyOf? {
      forall i | Alternative(node, i) ensures AlternativesAgree(defs, node.anyOf.branches[i], seen) {
        AlternativeIsSound(defs, node, i, seen);
        SoundMeansAgreed(defs, node.anyOf.branches[i], seen, rank, free, bound);
      }
      forall i, j | Alternative(node, i) && Alternative(node, j)
        ensures DemandsAll(ListOf(defs, node, i, seen), ListOf(defs, node, j, seen))
      {
        AlternativesDemand(defs, node, i, j, seen, rank, free, bound);
      }
    } else if node.items.Some? {
      ItemsAreSound(defs, node, seen);
      SoundMeansAgreed(defs, node.items.value, seen, rank, free, bound);
    } else {
      forall j | 0 <= j < |node.properties| ensures AlternativesAgree(defs, node.properties[j].spec, seen) {
        if !(node.values.Some? && node.types == One("string")) {
          FieldIsSound(defs, node, j, seen);
          SoundMeansAgreed(defs, node.properties[j].spec, seen, rank, free, bound);
        }
      }
    }
  }

  /** Where no enum is reached through a circle of references: every document the enum part admits satisfies the list if
      and only if, at every choice the walk meets, alternatives demand the same, path by path. */
  lemma CollectedIsSoundIffAlternativesAgree(
    defs: Defs, root: Schema, rank: map<string, nat>, free: set<string>, bound: nat)
    requires Walk(defs, root, {}).Some? && Grounded(defs, root, rank, free, bound)
    ensures SoundForEnums(defs, root, {}) <==> AlternativesAgree(defs, root, {})
  {
    if SoundForEnums(defs, root, {}) {
      SoundMeansAgreed(defs, root, {}, rank, free, bound);
    }
    if AlternativesAgree(defs, root, {}) {
      var depth: nat := |defs.Keys|;
      assert defs.Keys - {} == defs.Keys;
      forall doc | EnumPart(defs, root, doc) ensures SatisfiesAll(doc, Walk(defs, root, {}).value) {
        assert EnumsHold(depth, defs, root, doc);
        EnumsImplyConstraints(depth, defs, root, {}, doc);
      }
    }
  }

  /** And then the list checks exactly the enum part of the schema. */
  lemma CollectedIsExact(defs: Defs, root: Schema, doc: Json, rank: map<string, nat>, free: set<string>, bound: nat)
    requires Walk(defs, root, {}).Some? && Grounded(defs, root, rank, free, bound)
    requires AlternativesAgree(defs, root, {})
    ensures SatisfiesAll(doc, Walk(defs, root, {}).value) <==> EnumPart(defs, root, doc)
  {
    CollectedIsSoundIffAlternativesAgree(defs, root, rank, free, bound);
    if SatisfiesAll(doc, Walk(defs, root, {}).value) {
      forall depth: nat ensures EnumsHold(depth, defs, root, doc) {
        ConstraintsImplyEnums(depth, defs, root, {}, doc, rank, free, bound);
      }
    }
  }

  // ---- The definition that refers to itself ----

  const BLANK: Schema := Schema(None, NoChoice, None, Untyped, None, [], None, false, false)

  /** Any JSON value, nested through itself. */
  const CONTEXT_VALUE: Schema := BLANK.(anyOf := AnyOf([
    BLANK.(types := One("null")),
    BLANK.(types := One("boolean")),
    BLANK.(types := One("number")),
    BLANK.(types := One("string")),
    BLANK.(types := One("array"), items := Some(BLANK.(ref := Some("ContextValue")))),
    BLANK.(types := One("object"))
  ]))

  /** The circle through it is one in which no enum is found: payloads that reach it are read exactly all the same. */
  lemma ContextValueHoldsNoEnum()
    ensures EnumFree({"ContextValue"}, CONTEXT_VALUE)
  {
    var bs := CONTEXT_VALUE.anyOf.branches;
    var item := BLANK.(ref := Some("ContextValue"));
    assert EnumFree({"ContextValue"}, item);
    assert !IsNull(bs[1]);
    SomeNonNull(bs, 1);
    forall i | 0 <= i < |bs| ensures EnumFree({"ContextValue"}, bs[i]) {
      if i == 4 { assert bs[i].items == Some(item); }
    }
  }
}
