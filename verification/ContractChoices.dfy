/** Choices between string enums: when every document the schema admits satisfies the list. */
module ContractChoices {
  import opened Json
  import opened Contract
  import opened ContractMeaning

  /** A string enum and nothing else. */
  predicate EnumLeaf(node: Schema) {
    && node.ref.None? && node.anyOf.NoChoice? && node.values.Some? && node.values.value != []
    && node.types == One("string") && node.items.None? && node.properties == [] && node.constant.None?
  }

  ghost predicate EnumChoice(root: Schema) {
    && root.ref.None? && root.anyOf.AnyOf? && root.values.None? && root.types.Untyped?
    && root.items.None? && root.properties == [] && root.constant.None?
    && forall i | Alternative(root, i) :: EnumLeaf(root.anyOf.branches[i])
  }

  function ValuesOf(root: Schema, i: int): seq<string>
    requires root.anyOf.AnyOf? && 0 <= i < |root.anyOf.branches|
  {
    root.anyOf.branches[i].values.GetOr([])
  }

  lemma {:induction false} EnumChoiceIsWalked(defs: Defs, root: Schema, i: nat)
    requires EnumChoice(root) && i <= |root.anyOf.branches|
    ensures WalkBranches(defs, root, i, {}).Some?
    decreases |root.anyOf.branches| - i
  {
    if i < |root.anyOf.branches| {
      EnumChoiceIsWalked(defs, root, i + 1);
      assert IsNull(root.anyOf.branches[i]) || Alternative(root, i);
    }
  }

  /** The list of a choice between string enums asks of a text that every one of them has it. */
  lemma EnumChoiceAsks(defs: Defs, root: Schema, doc: Json)
    requires EnumChoice(root)
    ensures Walk(defs, root, {}).Some?
    ensures SatisfiesAll(doc, Walk(defs, root, {}).value) <==>
            (doc.Str? ==> forall j | Alternative(root, j) :: doc.s in ValuesOf(root, j))
  {
    EnumChoiceIsWalked(defs, root, 0);
    ListIsAllAlternatives(defs, root, {}, doc);
    forall j | Alternative(root, j)
      ensures SatisfiesAll(doc, ListOf(defs, root, j, {})) <==> (doc.Str? ==> doc.s in ValuesOf(root, j))
    {
      assert ListOf(defs, root, j, {}) == [Constraint([], ValuesOf(root, j))];
      assert Select(doc, []) == [doc];
      assert Constraint([], ValuesOf(root, j)) in ListOf(defs, root, j, {});
    }
  }

  /** A text that one enum has and another has not is admitted by the schema and refused by the list. */
  lemma TwoAlternativesAreUnsound(defs: Defs, root: Schema, i: int, j: int, s: string)
    requires EnumChoice(root) && Alternative(root, i) && Alternative(root, j)
    requires s in ValuesOf(root, i) && s !in ValuesOf(root, j)
    ensures forall depth: nat :: Valid(depth, defs, root, Str(s))
    ensures Walk(defs, root, {}).Some? && !SatisfiesAll(Str(s), Walk(defs, root, {}).value)
  {
    EnumChoiceAsks(defs, root, Str(s));
    forall depth: nat ensures Valid(depth, defs, root, Str(s)) {
      assert EnumLeaf(root.anyOf.branches[i]);
      assert Valid(depth, defs, root.anyOf.branches[i], Str(s));
    }
  }

  ghost predicate SoundForSchema(defs: Defs, root: Schema)
    requires Walk(defs, root, {}).Some?
  {
    forall doc | (forall depth: nat :: Valid(depth, defs, root, doc)) :: SatisfiesAll(doc, Walk(defs, root, {}).value)
  }

  /** For a choice between string enums, and null or not: every valid document satisfies the list if and only if the
      enums have the same values. */
  lemma EnumChoiceIsSoundIffSameValues(defs: Defs, root: Schema)
    requires EnumChoice(root)
    ensures Walk(defs, root, {}).Some?
    ensures SoundForSchema(defs, root) <==>
            forall i, j, s | Alternative(root, i) && Alternative(root, j) && s in ValuesOf(root, i) ::
              s in ValuesOf(root, j)
  {
    EnumChoiceAsks(defs, root, Null);
    if forall i, j, s | Alternative(root, i) && Alternative(root, j) && s in ValuesOf(root, i) ::
         s in ValuesOf(root, j)
    {
      forall doc | (forall depth: nat :: Valid(depth, defs, root, doc))
        ensures SatisfiesAll(doc, Walk(defs, root, {}).value)
      {
        EnumChoiceAsks(defs, root, doc);
        assert Valid(0, defs, root, doc);
        var i :| 0 <= i < |root.anyOf.branches| && Valid(0, defs, root.anyOf.branches[i], doc);
        if doc.Str? { assert Alternative(root, i) && EnumLeaf(root.anyOf.branches[i]) && doc.s in ValuesOf(root, i); }
      }
    } else {
      var i, j, s :| Alternative(root, i) && Alternative(root, j) && s in ValuesOf(root, i) && s !in ValuesOf(root, j);
      TwoAlternativesAreUnsound(defs, root, i, j, s);
    }
  }
}
